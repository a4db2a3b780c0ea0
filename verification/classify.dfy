/** Classification of the collected rows: percentile ranks, the value score and the high-like and
    high-value labels, written into the rows in place. */
module Classify {
  import opened Contracts
  import opened Percentiles

  /** The numeric fields of a row that are known. */
  type Numbers = map<string, real>

  function KnownValues(rows: seq<Numbers>, key: string): (values: seq<real>)
    ensures |values| <= |rows|
  {
    if |rows| == 0 then []
    else
      var last := rows[|rows| - 1];
      KnownValues(rows[..|rows| - 1], key) + if key in last then [last[key]] else []
  }

  lemma {:induction false} KnownIn(rows: seq<Numbers>, key: string, i: nat)
    requires i < |rows| && key in rows[i]
    ensures rows[i][key] in KnownValues(rows, key)
  {
    if i < |rows| - 1 { KnownIn(rows[..|rows| - 1], key, i); }
  }

  // Percentile ranks ---------------------------------------------------------------------------

  function RankedRow(values: seq<real>, row: Numbers, source: string, target: string): Numbers {
    if source in row then row[target := Clamped(Rank(values, row[source]))] else row - {target}
  }

  /** percentile_ranks: without any known value nothing is written. */
  function RankAll(rows: seq<Numbers>, source: string, target: string): (ranked: seq<Numbers>)
    ensures |ranked| == |rows|
  {
    var values := KnownValues(rows, source);
    if |values| == 0 then rows
    else seq(|rows|, i requires 0 <= i < |rows| => RankedRow(values, rows[i], source, target))
  }

  lemma {:induction false} CountsInserted(x: real, xs: seq<real>, v: real)
    ensures CountLess(InsertReal(x, xs), v) == CountLess(xs, v) + (if x < v then 1 else 0)
    ensures CountEqual(InsertReal(x, xs), v) == CountEqual(xs, v) + (if x == v then 1 else 0)
  {
    if |xs| > 0 && xs[0] < x {
      CountsInserted(x, xs[1..], v);
      CountsConcat([xs[0]], InsertReal(x, xs[1..]), v);
      CountsConcat([xs[0]], xs[1..], v);
      assert [xs[0]] + xs[1..] == xs;
    } else {
      CountsConcat([x], xs, v);
    }
    CountsOne(x, v);
  }

  lemma CountsOne(x: real, v: real)
    ensures CountLess([x], v) == (if x < v then 1 else 0) && CountEqual([x], v) == (if x == v then 1 else 0)
  {
    assert [x][..0] == [];
  }

  lemma {:induction false} CountsConcat(a: seq<real>, b: seq<real>, v: real)
    ensures CountLess(a + b, v) == CountLess(a, v) + CountLess(b, v)
    ensures CountEqual(a + b, v) == CountEqual(a, v) + CountEqual(b, v)
    decreases |b|
  {
    if |b| == 0 {
      assert a + b == a;
    } else {
      CountsConcat(a, b[..|b| - 1], v);
      assert (a + b)[..|a + b| - 1] == a + b[..|b| - 1];
    }
  }

  /** The source sorts the values first; the rank does not depend on it. */
  lemma {:induction false} RankSorted(xs: seq<real>, v: real)
    ensures CountLess(SortReals(xs), v) == CountLess(xs, v) && CountEqual(SortReals(xs), v) == CountEqual(xs, v)
    ensures Rank(SortReals(xs), v) == Rank(xs, v)
  {
    if |xs| > 0 {
      var n := |xs| - 1;
      RankSorted(xs[..n], v);
      CountsInserted(xs[n], SortReals(xs[..n]), v);
    }
  }

  /** Two rows' ranks compare as their values do, and lie in 0..100. */
  lemma RankedOrder(rows: seq<Numbers>, source: string, target: string, i: nat, j: nat)
    requires i < |rows| && j < |rows| && source in rows[i] && source in rows[j]
    ensures var ranked := RankAll(rows, source, target);
      && target in ranked[i] && target in ranked[j] && 0.0 <= ranked[i][target] <= 100.0
      && (ranked[i][target] < ranked[j][target] <==> rows[i][source] < rows[j][source])
  {
    KnownIn(rows, source, i);
    KnownIn(rows, source, j);
    var values := KnownValues(rows, source);
    hide Rank, KnownValues;
    RankBounds(values, rows[i][source]);
    RankBounds(values, rows[j][source]);
    RankOrder(values, rows[i][source], rows[j][source]);
  }

  // The value score ----------------------------------------------------------------------------

  datatype Weight = Weight(weight: real, key: string)

  const LIKES: string := "topic_like_percentile"
  const BOOKMARKS: string := "topic_bookmark_percentile"
  const LIFT: string := "creator_lift_percentile"
  const COMMENTS: string := "topic_comment_percentile"

  const WEIGHTS: seq<Weight> := [Weight(0.4, LIKES), Weight(0.3, BOOKMARKS), Weight(0.2, LIFT), Weight(0.1, COMMENTS)]

  function WeightSum(weights: seq<Weight>, row: Numbers): real {
    if |weights| == 0 then 0.0
    else (if weights[0].key in row then weights[0].weight else 0.0) + WeightSum(weights[1..], row)
  }

  function WeightedSum(weights: seq<Weight>, row: Numbers): real {
    if |weights| == 0 then 0.0
    else
      var first := if weights[0].key in row then Times(weights[0].weight, row[weights[0].key]) else 0.0;
      first + WeightedSum(weights[1..], row)
  }

  function ValueScore(row: Numbers): Option<real> {
    var sum := WeightSum(WEIGHTS, row);
    if sum >= 0.7 then Some(WeightedSum(WEIGHTS, row) / sum) else None
  }

  lemma SumsUnfolded(row: Numbers)
    ensures WeightSum(WEIGHTS, row) ==
      (if LIKES in row then 0.4 else 0.0) + (if BOOKMARKS in row then 0.3 else 0.0) +
      (if LIFT in row then 0.2 else 0.0) + (if COMMENTS in row then 0.1 else 0.0)
  {
    assert WEIGHTS[1..] == [Weight(0.3, BOOKMARKS), Weight(0.2, LIFT), Weight(0.1, COMMENTS)];
    assert WEIGHTS[1..][1..] == [Weight(0.2, LIFT), Weight(0.1, COMMENTS)];
    assert WEIGHTS[1..][1..][1..] == [Weight(0.1, COMMENTS)];
    assert WEIGHTS[1..][1..][1..][1..] == [];
    SumStep(WEIGHTS, row);
    SumStep(WEIGHTS[1..], row);
    SumStep(WEIGHTS[1..][1..], row);
    SumStep(WEIGHTS[1..][1..][1..], row);
    assert WeightSum([], row) == 0.0;
  }

  lemma SumStep(weights: seq<Weight>, row: Numbers)
    requires |weights| > 0
    ensures WeightSum(weights, row) ==
      (if weights[0].key in row then weights[0].weight else 0.0) + WeightSum(weights[1..], row)
  {
  }

  /** The score exists exactly when enough of the weight is known; with no creator lift, as here,
      exactly when likes and bookmarks are ranked. */
  lemma {:induction false} ScoreExists(row: Numbers)
    ensures ValueScore(row).Some? <==> LIKES in row && (BOOKMARKS in row || (LIFT in row && COMMENTS in row))
    ensures LIFT !in row ==> (ValueScore(row).Some? <==> LIKES in row && BOOKMARKS in row)
  {
    SumsUnfolded(row);
    hide WEIGHTS, LIKES, BOOKMARKS, LIFT, COMMENTS, WeightSum, WeightedSum;
  }

  ghost predicate GoodWeights(weights: seq<Weight>) {
    forall i :: 0 <= i < |weights| ==> weights[i].weight >= 0.0
  }

  ghost predicate InRange(weights: seq<Weight>, row: Numbers) {
    forall i :: 0 <= i < |weights| && weights[i].key in row ==> 0.0 <= row[weights[i].key] <= 100.0
  }

  lemma ProductBounds(w: real, x: real)
    requires w >= 0.0 && 0.0 <= x <= 100.0
    ensures 0.0 <= Times(w, x) <= 100.0 * w
  {
    assert w * (100.0 - x) >= 0.0;
  }

  lemma {:induction false} SumBounds(weights: seq<Weight>, row: Numbers)
    requires GoodWeights(weights) && InRange(weights, row)
    ensures 0.0 <= WeightedSum(weights, row) <= 100.0 * WeightSum(weights, row)
  {
    hide Times;
    if |weights| > 0 {
      SumBounds(weights[1..], row);
      if weights[0].key in row { ProductBounds(weights[0].weight, row[weights[0].key]); }
    }
  }

  lemma QuotientBounds(x: real, s: real)
    requires s > 0.0 && 0.0 <= x <= 100.0 * s
    ensures 0.0 <= x / s <= 100.0
  {
    var y := x / s;
    assert y * s == x;
    assert y > 100.0 ==> y * s > 100.0 * s;
    assert y < 0.0 ==> y * s < 0.0;
  }

  /** A weighted mean of percentiles is a percentile. */
  lemma ScoreBounds(row: Numbers)
    requires InRange(WEIGHTS, row) && ValueScore(row).Some?
    ensures 0.0 <= ValueScore(row).value <= 100.0
  {
    SumBounds(WEIGHTS, row);
    hide WeightSum, WeightedSum;
    QuotientBounds(WeightedSum(WEIGHTS, row), WeightSum(WEIGHTS, row));
  }

  /** The same percentiles are known, none smaller in b. */
  ghost predicate AtMost(weights: seq<Weight>, a: Numbers, b: Numbers) {
    forall i :: 0 <= i < |weights| ==>
      (weights[i].key in a <==> weights[i].key in b) && (weights[i].key in a ==> a[weights[i].key] <= b[weights[i].key])
  }

  lemma ProductMonotone(w: real, x: real, y: real)
    requires w >= 0.0 && x <= y
    ensures Times(w, x) <= Times(w, y)
  {
    assert w * (y - x) >= 0.0;
  }

  lemma {:induction false} SumMonotone(weights: seq<Weight>, a: Numbers, b: Numbers)
    requires GoodWeights(weights) && AtMost(weights, a, b)
    ensures WeightedSum(weights, a) <= WeightedSum(weights, b) && WeightSum(weights, a) == WeightSum(weights, b)
  {
    hide Times;
    if |weights| > 0 {
      SumMonotone(weights[1..], a, b);
      if weights[0].key in a { ProductMonotone(weights[0].weight, a[weights[0].key], b[weights[0].key]); }
    }
  }

  lemma QuotientMonotone(x: real, y: real, s: real)
    requires s > 0.0 && x <= y
    ensures x / s <= y / s
  {
    var p, q := x / s, y / s;
    assert p * s == x && q * s == y;
    assert p > q ==> p * s > q * s;
  }

  /** No percentile smaller, the score is no smaller. */
  lemma ScoreMonotone(a: Numbers, b: Numbers)
    requires AtMost(WEIGHTS, a, b) && ValueScore(a).Some?
    ensures ValueScore(b).Some? && ValueScore(a).value <= ValueScore(b).value
  {
    SumMonotone(WEIGHTS, a, b);
    hide WeightSum, WeightedSum;
    QuotientMonotone(WeightedSum(WEIGHTS, a), WeightedSum(WEIGHTS, b), WeightSum(WEIGHTS, a));
  }

  function Max(x: real, y: real): real { if x >= y then x else y }

  /** The ratios and the score of one row; a missing one keeps what was there. */
  function ScoredRow(row: Numbers): Numbers {
    var rated :=
      if "bookmarks" in row && "likes" in row then row["save_like_ratio" := row["bookmarks"] / Max(row["likes"], 1.0)]
      else row;
    var saved :=
      if "bookmarks" in row && "views" in row then rated["save_rate" := row["bookmarks"] / Max(row["views"], 1.0)]
      else rated;
    match ValueScore(row) case Some(score) => saved["value_score" := score] case None => saved
  }

  // Labels -------------------------------------------------------------------------------------

  /** max(20, cutoff) for likes, the plain cutoff otherwise. */
  function Cutoff(rows: seq<Numbers>, key: string, floor: Option<real>): Option<real> {
    match LinearPercentile(KnownValues(rows, key), 0.9)
    case None => None
    case Some(c) => Some(match floor case Some(f) => Max(f, c) case None => c)
  }

  datatype Mark = NotHigh | Insufficient | Preliminary | Certified

  /** The label of a row among n rows with the metric known; a row without it keeps its label. */
  function MarkOf(row: Numbers, key: string, n: nat, cutoff: real, was: Mark): Mark {
    if key !in row then was
    else if n < 10 then Insufficient
    else if row[key] >= cutoff then (if n >= 30 then Certified else Preliminary)
    else NotHigh
  }

  predicate High(mark: Mark) { mark == Certified || mark == Preliminary }

  function Marks(rows: seq<Numbers>, key: string, floor: Option<real>): (marks: seq<Mark>)
    ensures |marks| == |rows|
  {
    var n, cutoff := |KnownValues(rows, key)|, Cutoff(rows, key, floor).GetOr(0.0);
    seq(|rows|, i requires 0 <= i < |rows| => MarkOf(rows[i], key, n, cutoff, NotHigh))
  }

  /** The high rows are upward closed: a row no lower than a high one is high. Under a floor they
      all reach it. */
  lemma {:induction false} HighIsUpwardClosed(rows: seq<Numbers>, key: string, floor: Option<real>, i: nat, j: nat)
    requires i < |rows| && j < |rows| && High(Marks(rows, key, floor)[i]) && key in rows[j] && key in rows[i]
    requires rows[i][key] <= rows[j][key]
    ensures High(Marks(rows, key, floor)[j])
    ensures floor.Some? ==> rows[j][key] >= floor.value
  {
    KnownIn(rows, key, i);
    CutoffBetween(KnownValues(rows, key), 0.9);
    hide LinearPercentile, KnownValues, SortReals, Lower, Upper;
  }

  lemma {:induction false} SomeReach(rows: seq<Numbers>, key: string, c: real)
    requires CountReach(KnownValues(rows, key), c) >= 1
    ensures exists i :: 0 <= i < |rows| && key in rows[i] && rows[i][key] >= c
  {
    if |rows| > 0 {
      var n := |rows| - 1;
      var before := KnownValues(rows[..n], key);
      if !(key in rows[n] && rows[n][key] >= c) {
        if key in rows[n] {
          assert KnownValues(rows, key) == before + [rows[n][key]];
          CountConcat(before, [rows[n][key]], c);
          CountOne(rows[n][key], c);
        } else {
          assert KnownValues(rows, key) == before;
        }
        SomeReach(rows[..n], key, c);
        var i :| 0 <= i < n && key in rows[..n][i] && rows[..n][i][key] >= c;
        assert rows[i] == rows[..n][i];
      }
    }
  }

  /** With ten rows known and no floor, some row is high. */
  lemma {:induction false} SomeRowIsHigh(rows: seq<Numbers>, key: string)
    requires |KnownValues(rows, key)| >= 10
    ensures exists i :: 0 <= i < |rows| && High(Marks(rows, key, None)[i])
  {
    CutoffCounts(KnownValues(rows, key), 0.9);
    hide LinearPercentile, Lower, Upper, CountExceed;
    var c := Cutoff(rows, key, None).value;
    SomeReach(rows, key, c);
    var i :| 0 <= i < |rows| && key in rows[i] && rows[i][key] >= c;
    assert High(Marks(rows, key, None)[i]);
  }

  // The rows -----------------------------------------------------------------------------------

  class Row {
    const relevant: bool
    const hasPrompt: bool
    var numbers: Numbers
    var highLike: Mark
    var highValue: Mark

    constructor (relevant: bool, hasPrompt: bool, numbers: Numbers)
      ensures this.relevant == relevant && this.hasPrompt == hasPrompt && this.numbers == numbers
      ensures highLike == NotHigh && highValue == NotHigh
    {
      this.relevant, this.hasPrompt, this.numbers := relevant, hasPrompt, numbers;
      highLike, highValue := NotHigh, NotHigh;
    }
  }

  ghost predicate Distinct(rows: seq<Row>) {
    forall i, j :: 0 <= i < j < |rows| ==> rows[i] != rows[j]
  }

  function NumbersOf(rows: seq<Row>): (numbers: seq<Numbers>)
    reads rows
    ensures |numbers| == |rows| && forall i :: 0 <= i < |rows| ==> numbers[i] == rows[i].numbers
  {
    if |rows| == 0 then [] else NumbersOf(rows[..|rows| - 1]) + [rows[|rows| - 1].numbers]
  }

  method CollectKnown(rows: seq<Row>, key: string) returns (values: seq<real>)
    ensures values == KnownValues(NumbersOf(rows), key)
  {
    values := [];
    var numbers := NumbersOf(rows);
    for k := 0 to |rows|
      invariant values == KnownValues(numbers[..k], key)
    {
      assert numbers[..k + 1][..k] == numbers[..k];
      if key in rows[k].numbers { values := values + [rows[k].numbers[key]]; }
    }
    assert numbers[..|rows|] == numbers;
  }

  /** percentile_ranks. */
  method PercentileRanks(rows: seq<Row>, source: string, target: string)
    requires Distinct(rows) && source != target
    modifies rows`numbers
    ensures NumbersOf(rows) == RankAll(old(NumbersOf(rows)), source, target)
  {
    hide Rank, Clamped, KnownValues, SortReals;
    ghost var before := NumbersOf(rows);
    var known := CollectKnown(rows, source);
    var values := SortReals(known);
    if |values| == 0 { return; }
    for k := 0 to |rows|
      invariant forall i :: 0 <= i < k ==> rows[i].numbers == RankedRow(known, before[i], source, target)
      invariant forall i :: k <= i < |rows| ==> rows[i].numbers == before[i]
    {
      var row := rows[k];
      if source in row.numbers {
        RankSorted(known, row.numbers[source]);
        row.numbers := row.numbers[target := Clamped(Rank(values, row.numbers[source]))];
      } else {
        row.numbers := row.numbers - {target};
      }
    }
  }

  function ScoreAll(rows: seq<Numbers>): (scored: seq<Numbers>)
    ensures |scored| == |rows|
  {
    seq(|rows|, i requires 0 <= i < |rows| => ScoredRow(rows[i]))
  }

  method ScoreRows(rows: seq<Row>)
    requires Distinct(rows)
    modifies rows`numbers
    ensures NumbersOf(rows) == ScoreAll(old(NumbersOf(rows)))
  {
    ghost var before := NumbersOf(rows);
    for k := 0 to |rows|
      invariant forall i :: 0 <= i < k ==> rows[i].numbers == ScoredRow(before[i])
      invariant forall i :: k <= i < |rows| ==> rows[i].numbers == before[i]
    {
      hide ScoredRow;
      rows[k].numbers := ScoredRow(rows[k].numbers);
    }
  }

  /** What classification leaves in the prompt rows' numbers. */
  function Classified(rows: seq<Numbers>): (classified: seq<Numbers>)
    ensures |classified| == |rows|
  {
    ScoreAll(Ranked(rows))
  }

  // The score after classification -------------------------------------------------------------

  /** A row as normalisation makes it: no percentile and no score yet. */
  ghost predicate Raw(row: Numbers) {
    LIKES !in row && BOOKMARKS !in row && LIFT !in row && COMMENTS !in row && "value_score" !in row
  }

  /** Ranking one metric adds a percentile to the rows that have it and changes nothing else. */
  lemma RankEffect(rows: seq<Numbers>, source: string, target: string, i: nat)
    requires i < |rows| && target !in rows[i]
    ensures var ranked := RankAll(rows, source, target);
      && (source in rows[i] ==>
            target in ranked[i] && 0.0 <= ranked[i][target] <= 100.0 && ranked[i] == rows[i][target := ranked[i][target]])
      && (source !in rows[i] ==> ranked[i] == rows[i])
  {
    if source in rows[i] {
      RankedOrder(rows, source, target, i, i);
    } else {
      assert rows[i] - {target} == rows[i];
    }
  }

  lemma KeysDiffer()
    ensures |LIKES| == 21 && |BOOKMARKS| == 25 && |LIFT| == 23 && |COMMENTS| == 24
  {
  }

  /** The three rankings together. */
  function Ranked(rows: seq<Numbers>): (ranked: seq<Numbers>)
    ensures |ranked| == |rows|
  {
    RankAll(RankAll(RankAll(rows, "likes", LIKES), "bookmarks", BOOKMARKS), "comments", COMMENTS)
  }

  lemma RankedRowShape(rows: seq<Numbers>, i: nat)
    requires i < |rows| && Raw(rows[i])
    ensures var row := Ranked(rows)[i];
      && (LIKES in row <==> "likes" in rows[i]) && (BOOKMARKS in row <==> "bookmarks" in rows[i]) &&
            (COMMENTS in row <==> "comments" in rows[i])
      && LIFT !in row && "value_score" !in row && InRange(WEIGHTS, row)
  {
    KeysDiffer();
    hide RankAll, LIKES, BOOKMARKS, COMMENTS, LIFT;
    RankEffect(rows, "likes", LIKES, i);
    RankEffect(RankAll(rows, "likes", LIKES), "bookmarks", BOOKMARKS, i);
    RankEffect(RankAll(RankAll(rows, "likes", LIKES), "bookmarks", BOOKMARKS), "comments", COMMENTS, i);
  }

  lemma ScoredValue(row: Numbers)
    requires "value_score" !in row
    ensures "value_score" in ScoredRow(row) <==> ValueScore(row).Some?
    ensures ValueScore(row).Some? ==> ScoredRow(row)["value_score"] == ValueScore(row).value
  {
    hide ValueScore;
  }

  /** After classification a row has a value score exactly when its likes and bookmarks are known,
      and the score lies in 0..100. */
  lemma {:induction false} ScoreOfKnown(rows: seq<Numbers>, i: nat)
    requires i < |rows| && Raw(rows[i])
    ensures var row := Classified(rows)[i];
      ("value_score" in row <==> "likes" in rows[i] && "bookmarks" in rows[i]) &&
        ("value_score" in row ==> 0.0 <= row["value_score"] <= 100.0)
  {
    RankedRowShape(rows, i);
    var row := Ranked(rows)[i];
    assert Classified(rows)[i] == ScoredRow(row);
    hide Ranked, Classified, ScoredRow, ValueScore, InRange;
    ScoreExists(row);
    ScoredValue(row);
    if ValueScore(row).Some? { ScoreBounds(row); }
  }

  /** Likes, bookmarks and comments known in both, none smaller in the second. */
  predicate NoSmaller(a: Numbers, b: Numbers) {
    && "likes" in a && "likes" in b && a["likes"] <= b["likes"]
    && "bookmarks" in a && "bookmarks" in b && a["bookmarks"] <= b["bookmarks"]
    && "comments" in a && "comments" in b && a["comments"] <= b["comments"]
  }

  lemma RankedAtMost(rows: seq<Numbers>, i: nat, j: nat)
    requires i < |rows| && j < |rows| && Raw(rows[i]) && Raw(rows[j]) && NoSmaller(rows[i], rows[j])
    ensures AtMost(WEIGHTS, Ranked(rows)[i], Ranked(rows)[j])
  {
    KeysDiffer();
    RankedRowShape(rows, i);
    RankedRowShape(rows, j);
    var first := RankAll(rows, "likes", LIKES);
    var second := RankAll(first, "bookmarks", BOOKMARKS);
    assert Ranked(rows) == RankAll(second, "comments", COMMENTS);
    hide RankAll, Ranked, LIKES, BOOKMARKS, COMMENTS, LIFT, InRange;
    BothRanked(rows, "likes", LIKES, i, j);
    BothRanked(first, "bookmarks", BOOKMARKS, i, j);
    BothRanked(second, "comments", COMMENTS, i, j);
  }

  lemma BothRanked(rows: seq<Numbers>, source: string, target: string, i: nat, j: nat)
    requires i < |rows| && j < |rows| && source in rows[i] && source in rows[j] && target !in rows[i]
    requires target !in rows[j]
    requires rows[i][source] <= rows[j][source]
    ensures var ranked := RankAll(rows, source, target);
      && target in ranked[i] && target in ranked[j] && ranked[i][target] <= ranked[j][target]
      && ranked[i] == rows[i][target := ranked[i][target]] && ranked[j] == rows[j][target := ranked[j][target]]
  {
    hide RankAll;
    RankedOrder(rows, source, target, j, i);
    RankEffect(rows, source, target, i);
    RankEffect(rows, source, target, j);
  }

  /** The score is monotone in the three metrics when all are known. */
  lemma {:induction false} ScoreFollowsMetrics(rows: seq<Numbers>, i: nat, j: nat)
    requires i < |rows| && j < |rows| && Raw(rows[i]) && Raw(rows[j]) && NoSmaller(rows[i], rows[j])
    ensures var classified := Classified(rows);
      "value_score" in classified[i] && "value_score" in classified[j] &&
        classified[i]["value_score"] <= classified[j]["value_score"]
  {
    RankedAtMost(rows, i, j);
    RankedRowShape(rows, i);
    RankedRowShape(rows, j);
    var a, b := Ranked(rows)[i], Ranked(rows)[j];
    assert Classified(rows)[i] == ScoredRow(a) && Classified(rows)[j] == ScoredRow(b);
    hide Ranked, Classified, ScoredRow, ValueScore, InRange, AtMost;
    ScoreExists(a);
    ScoreMonotone(a, b);
    ScoredValue(a);
    ScoredValue(b);
  }

  function PromptRows(rows: seq<Row>): (prompts: seq<Row>)
  {
    if |rows| == 0 then []
    else
      var last := rows[|rows| - 1];
      PromptRows(rows[..|rows| - 1]) + if last.relevant && last.hasPrompt then [last] else []
  }

  /** Exactly the relevant rows with a prompt. */
  lemma {:induction false} PromptMembers(rows: seq<Row>, r: Row)
    ensures r in PromptRows(rows) <==> r in rows && r.relevant && r.hasPrompt
  {
    if |rows| > 0 {
      var n := |rows| - 1;
      PromptMembers(rows[..n], r);
      assert r in rows <==> r in rows[..n] || r == rows[n];
    }
  }

  lemma {:induction false} PromptsDistinct(rows: seq<Row>)
    requires Distinct(rows)
    ensures Distinct(PromptRows(rows))
  {
    if |rows| > 0 {
      var n := |rows| - 1;
      PromptsDistinct(rows[..n]);
      assert rows[n] !in rows[..n];
      PromptMembers(rows[..n], rows[n]);
    }
  }

  method MarkRows(rows: seq<Row>, likeCutoff: Option<real>, valueCutoff: Option<real>, likes: nat, scores: nat)
    requires Distinct(rows)
    modifies rows`highLike, rows`highValue
    ensures forall i :: 0 <= i < |rows| ==>
      rows[i].highLike == MarkOf(rows[i].numbers, "likes", likes, likeCutoff.GetOr(0.0), old(rows[i].highLike))
    ensures forall i :: 0 <= i < |rows| ==>
      rows[i].highValue == MarkOf(rows[i].numbers, "value_score", scores, valueCutoff.GetOr(0.0), old(rows[i].highValue))
  {
    for k := 0 to |rows|
      invariant forall i :: 0 <= i < k ==>
        rows[i].highLike == MarkOf(rows[i].numbers, "likes", likes, likeCutoff.GetOr(0.0), old(rows[i].highLike))
      invariant forall i :: 0 <= i < k ==>
        rows[i].highValue == MarkOf(rows[i].numbers, "value_score", scores, valueCutoff.GetOr(0.0), old(rows[i].highValue))
      invariant forall i :: k <= i < |rows| ==>
        rows[i].highLike == old(rows[i].highLike) && rows[i].highValue == old(rows[i].highValue)
    {
      hide MarkOf;
      rows[k].highLike := MarkOf(rows[k].numbers, "likes", likes, likeCutoff.GetOr(0.0), rows[k].highLike);
      rows[k].highValue := MarkOf(rows[k].numbers, "value_score", scores, valueCutoff.GetOr(0.0), rows[k].highValue);
    }
  }

  function LikeMarks(rows: seq<Row>): (marks: seq<Mark>)
    reads rows
    ensures |marks| == |rows| && forall i :: 0 <= i < |rows| ==> marks[i] == rows[i].highLike
  {
    if |rows| == 0 then [] else LikeMarks(rows[..|rows| - 1]) + [rows[|rows| - 1].highLike]
  }

  function ValueMarks(rows: seq<Row>): (marks: seq<Mark>)
    reads rows
    ensures |marks| == |rows| && forall i :: 0 <= i < |rows| ==> marks[i] == rows[i].highValue
  {
    if |rows| == 0 then [] else ValueMarks(rows[..|rows| - 1]) + [rows[|rows| - 1].highValue]
  }

  /** What classification returns for rows whose numbers end up like this. */
  ghost predicate Cutoffs(numbers: seq<Numbers>, likeCutoff: Option<real>, valueCutoff: Option<real>) {
    likeCutoff == Cutoff(numbers, "likes", Some(20.0)) && valueCutoff == Cutoff(numbers, "value_score", None)
  }

  /** Ranking and scoring, step after step. */
  method RankAndScore(rows: seq<Row>)
    requires Distinct(rows)
    modifies rows`numbers
    ensures NumbersOf(rows) == Classified(old(NumbersOf(rows)))
  {
    hide RankAll, ScoreAll;
    PercentileRanks(rows, "likes", LIKES);
    PercentileRanks(rows, "bookmarks", BOOKMARKS);
    PercentileRanks(rows, "comments", COMMENTS);
    ScoreRows(rows);
  }

  /** Cutoffs and labels, from the numbers as they are. */
  method MarkPrompts(prompts: seq<Row>) returns (likeCutoff: Option<real>, valueCutoff: Option<real>)
    requires Distinct(prompts) && forall r :: r in prompts ==> r.highLike == NotHigh && r.highValue == NotHigh
    modifies prompts`highLike, prompts`highValue
    ensures NumbersOf(prompts) == old(NumbersOf(prompts))
    ensures Cutoffs(NumbersOf(prompts), likeCutoff, valueCutoff)
    ensures LikeMarks(prompts) == Marks(NumbersOf(prompts), "likes", Some(20.0))
    ensures ValueMarks(prompts) == Marks(NumbersOf(prompts), "value_score", None)
  {
    hide KnownValues, LinearPercentile, MarkOf, Marks, Cutoff, Cutoffs;
    ghost var numbers := NumbersOf(prompts);
    var likes := CollectKnown(prompts, "likes");
    var scores := CollectKnown(prompts, "value_score");
    likeCutoff := LinearPercentile(likes, 0.9);
    if likeCutoff.Some? { likeCutoff := Some(Max(20.0, likeCutoff.value)); }
    valueCutoff := LinearPercentile(scores, 0.9);
    CutoffsOf(numbers, likeCutoff, valueCutoff);
    MarkRows(prompts, likeCutoff, valueCutoff, |likes|, |scores|);
    assert NumbersOf(prompts) == numbers;
    MarksOf(numbers, LikeMarks(prompts), "likes", Some(20.0));
    MarksOf(numbers, ValueMarks(prompts), "value_score", None);
  }

  lemma CutoffsOf(numbers: seq<Numbers>, likeCutoff: Option<real>, valueCutoff: Option<real>)
    requires var c := LinearPercentile(KnownValues(numbers, "likes"), 0.9);
      likeCutoff == if c.Some? then Some(Max(20.0, c.value)) else None
    requires valueCutoff == LinearPercentile(KnownValues(numbers, "value_score"), 0.9)
    ensures Cutoffs(numbers, likeCutoff, valueCutoff)
    ensures likeCutoff == Cutoff(numbers, "likes", Some(20.0)) && valueCutoff == Cutoff(numbers, "value_score", None)
  {
    hide KnownValues, LinearPercentile;
  }

  lemma MarksOf(numbers: seq<Numbers>, marks: seq<Mark>, key: string, floor: Option<real>)
    requires |marks| == |numbers|
    requires forall i :: 0 <= i < |numbers| ==>
      marks[i] == MarkOf(numbers[i], key, |KnownValues(numbers, key)|, Cutoff(numbers, key, floor).GetOr(0.0), NotHigh)
    ensures marks == Marks(numbers, key, floor)
  {
    hide KnownValues, Cutoff, MarkOf;
  }

  /** classify, from the rows with a prompt on. */
  method ClassifyPrompts(prompts: seq<Row>) returns (likeCutoff: Option<real>, valueCutoff: Option<real>)
    requires Distinct(prompts) && forall r :: r in prompts ==> r.highLike == NotHigh && r.highValue == NotHigh
    modifies prompts
    ensures NumbersOf(prompts) == Classified(old(NumbersOf(prompts)))
    ensures Cutoffs(NumbersOf(prompts), likeCutoff, valueCutoff)
    ensures LikeMarks(prompts) == Marks(NumbersOf(prompts), "likes", Some(20.0))
    ensures ValueMarks(prompts) == Marks(NumbersOf(prompts), "value_score", None)
  {
    hide Classified, Cutoffs, Marks;
    RankAndScore(prompts);
    likeCutoff, valueCutoff := MarkPrompts(prompts);
  }

  /** classify: only the relevant rows with a prompt are touched. */
  method ClassifyRows(rows: seq<Row>) returns (prompts: seq<Row>, likeCutoff: Option<real>, valueCutoff: Option<real>)
    requires Distinct(rows) && forall r :: r in PromptRows(rows) ==> r.highLike == NotHigh && r.highValue == NotHigh
    modifies PromptRows(rows)
    ensures prompts == PromptRows(rows) && NumbersOf(prompts) == Classified(old(NumbersOf(prompts)))
    ensures Cutoffs(NumbersOf(prompts), likeCutoff, valueCutoff)
    ensures LikeMarks(prompts) == Marks(NumbersOf(prompts), "likes", Some(20.0))
    ensures ValueMarks(prompts) == Marks(NumbersOf(prompts), "value_score", None)
  {
    hide PromptRows, Classified, Cutoffs, Marks;
    prompts := PromptRows(rows);
    PromptsDistinct(rows);
    likeCutoff, valueCutoff := ClassifyPrompts(prompts);
  }
}
