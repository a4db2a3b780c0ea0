/** The collector's records: observations of tweets merged in place, live and again from the archive
    of pages. Identifiers, timestamps and references are ASCII text. */
module Collector {
  import opened Order
  import opened Json
  import opened JsonOrder

  // Sorted sets --------------------------------------------------------------------------------

  function AddSorted(x: Text, xs: seq<Text>): seq<Text> {
    if |xs| == 0 then [x]
    else if xs[0] == x then xs
    else if Less(xs[0], x) then [xs[0]] + AddSorted(x, xs[1..])
    else [x] + xs
  }

  /** sorted(set(xs)). */
  function SortedSet(xs: seq<Text>): seq<Text> {
    if |xs| == 0 then [] else AddSorted(xs[|xs| - 1], SortedSet(xs[..|xs| - 1]))
  }

  lemma {:induction false} AddSortedMembers(x: Text, xs: seq<Text>, y: Text)
    ensures y in AddSorted(x, xs) <==> y == x || y in xs
  {
    if |xs| > 0 && xs[0] != x && Less(xs[0], x) {
      AddSortedMembers(x, xs[1..], y);
      assert y in xs <==> y == xs[0] || y in xs[1..];
    }
  }

  lemma {:induction false} AddSortedAscending(x: Text, xs: seq<Text>)
    requires Ascending(xs, Less)
    ensures Ascending(AddSorted(x, xs), Less)
  {
    if |xs| > 0 && xs[0] != x {
      if Less(xs[0], x) {
        var rest := AddSorted(x, xs[1..]);
        AddSortedAscending(x, xs[1..]);
        forall j | 0 <= j < |rest| ensures Less(xs[0], rest[j]) {
          AddSortedMembers(x, xs[1..], rest[j]);
        }
      } else {
        LessTotal(xs[0], x);
        forall j | 0 < j < |xs| ensures Less(x, xs[j]) { LessTransitive(x, xs[0], xs[j]); }
      }
    }
  }

  /** The list of the distinct elements, ascending. */
  lemma {:induction false} SortedSetMeaning(xs: seq<Text>)
    ensures Ascending(SortedSet(xs), Less) && forall y :: y in SortedSet(xs) <==> y in xs
  {
    if |xs| > 0 {
      var n := |xs| - 1;
      SortedSetMeaning(xs[..n]);
      AddSortedAscending(xs[n], SortedSet(xs[..n]));
      forall y ensures y in SortedSet(xs) <==> y in xs {
        AddSortedMembers(xs[n], SortedSet(xs[..n]), y);
        assert y in xs <==> y in xs[..n] || y == xs[n];
      }
    }
  }

  /** Only which elements there are matters. */
  lemma SortedSetUnique(xs: seq<Text>, ys: seq<Text>)
    requires forall y :: y in xs <==> y in ys
    ensures SortedSet(xs) == SortedSet(ys)
  {
    SortedSetMeaning(xs);
    SortedSetMeaning(ys);
    forall a: Text, b: Text | Less(a, b) ensures !Less(b, a) { LessAsymmetric(a, b); }
    SameMembers(SortedSet(xs), SortedSet(ys), Less);
  }

  // Observations and records -------------------------------------------------------------------

  /** A tweet found in a page; `content` is everything normalisation reads from it. */
  datatype Node = Node(id: Text, content: Text)

  /** A normalised tweet, as one page shows it or as merged from several. */
  datatype Observation = Observation(id: Text, content: Text, observedAt: Text, hits: seq<Text>, refs: seq<Text>)

  /** merge_record. */
  function Merge(existing: Observation, incoming: Observation): Observation {
    var hits, refs := SortedSet(existing.hits + incoming.hits), SortedSet(existing.refs + incoming.refs);
    if !Less(incoming.observedAt, existing.observedAt) then incoming.(hits := hits, refs := refs)
    else existing.(hits := hits, refs := refs)
  }

  /** A record as the collector holds it: a dictionary that merging updates. */
  class Record {
    var id: Text
    var content: Text
    var observedAt: Text
    var hits: seq<Text>
    var refs: seq<Text>

    constructor (first: Observation)
      ensures Value() == first
    {
      id, content, observedAt, hits, refs := first.id, first.content, first.observedAt, first.hits, first.refs;
    }

    function Value(): Observation
      reads this
    {
      Observation(id, content, observedAt, hits, refs)
    }

    method MergeRecord(incoming: Observation)
      modifies this
      ensures Value() == Merge(old(Value()), incoming)
    {
      hits := SortedSet(hits + incoming.hits);
      refs := SortedSet(refs + incoming.refs);
      if !Less(incoming.observedAt, observedAt) {
        var preservedHits, preservedRefs := hits, refs;
        id, content, observedAt, hits, refs :=
          incoming.id, incoming.content, incoming.observedAt, incoming.hits, incoming.refs;
        hits, refs := preservedHits, preservedRefs;
      }
    }
  }

  function Observe(records: map<Text, Observation>, o: Observation): map<Text, Observation> {
    if o.id in records then records[o.id := Merge(records[o.id], o)] else records[o.id := o]
  }

  function ObserveAll(records: map<Text, Observation>, observations: seq<Observation>): map<Text, Observation> {
    if |observations| == 0 then records
    else Observe(ObserveAll(records, observations[..|observations| - 1]), observations[|observations| - 1])
  }

  lemma {:induction false} ObserveConcat(records: map<Text, Observation>, a: seq<Observation>, b: seq<Observation>)
    ensures ObserveAll(records, a + b) == ObserveAll(ObserveAll(records, a), b)
    decreases |b|
  {
    if |b| == 0 {
      assert a + b == a;
    } else {
      ObserveConcat(records, a, b[..|b| - 1]);
      assert (a + b)[..|a + b| - 1] == a + b[..|b| - 1];
    }
  }

  lemma ObserveStep(records: map<Text, Observation>, a: seq<Observation>, o: Observation)
    ensures ObserveAll(records, a + [o]) == Observe(ObserveAll(records, a), o)
  {
    assert (a + [o])[..|a|] == a;
  }

  lemma {:induction false} ObserveGrows(records: map<Text, Observation>, observations: seq<Observation>)
    ensures records.Keys <= ObserveAll(records, observations).Keys
  {
    hide Merge;
    if |observations| > 0 { ObserveGrows(records, observations[..|observations| - 1]); }
  }

  // What a record means ------------------------------------------------------------------------

  function About(observations: seq<Observation>, id: Text): seq<Observation> {
    if |observations| == 0 then []
    else
      var last := observations[|observations| - 1];
      About(observations[..|observations| - 1], id) + if last.id == id then [last] else []
  }

  function AllHits(observations: seq<Observation>): seq<Text> {
    if |observations| == 0 then []
    else AllHits(observations[..|observations| - 1]) + observations[|observations| - 1].hits
  }

  function AllRefs(observations: seq<Observation>): seq<Text> {
    if |observations| == 0 then []
    else AllRefs(observations[..|observations| - 1]) + observations[|observations| - 1].refs
  }

  /** The last of the observations with the greatest timestamp. */
  ghost predicate LatestOf(observations: seq<Observation>, k: nat) {
    && k < |observations|
    && (forall j :: 0 <= j < |observations| ==> !Less(observations[k].observedAt, observations[j].observedAt))
    && (forall j :: k < j < |observations| ==> Less(observations[j].observedAt, observations[k].observedAt))
  }

  /** A single observation names one unit and one page, as normalisation makes it. */
  ghost predicate Fresh(o: Observation) {
    |o.hits| == 1 && |o.refs| == 1
  }

  /** The record made of these observations: their sorted unions, and the content of the latest. */
  ghost predicate Summarises(record: Observation, observations: seq<Observation>) {
    && record.hits == SortedSet(AllHits(observations)) && record.refs == SortedSet(AllRefs(observations))
    && exists k: nat ::
      LatestOf(observations, k) && record.content == observations[k].content && record.observedAt == observations[k].observedAt
                   && record.id == observations[k].id
  }

  lemma SortedUnion(xs: seq<Text>, ys: seq<Text>)
    ensures SortedSet(SortedSet(xs) + ys) == SortedSet(xs + ys)
  {
    SortedSetMeaning(xs);
    SortedSetUnique(SortedSet(xs) + ys, xs + ys);
  }

  lemma SingleSorted(xs: seq<Text>)
    requires |xs| == 1
    ensures SortedSet(xs) == xs
  {
    assert xs[..0] == [];
    assert SortedSet([]) == [];
  }

  lemma FirstSummary(o: Observation)
    requires Fresh(o)
    ensures Summarises(o, [o])
  {
    SingleSorted(o.hits);
    SingleSorted(o.refs);
    assert [o][..0] == [];
    assert AllHits([o]) == o.hits && AllRefs([o]) == o.refs;
    forall t: Text ensures !Less(t, t) { if Less(t, t) { LessAsymmetric(t, t); } }
    assert LatestOf([o], 0);
  }

  lemma MergeLatest(record: Observation, observations: seq<Observation>, o: Observation, k: nat) returns (best: nat)
    requires LatestOf(observations, k) && record.content == observations[k].content
    requires record.observedAt == observations[k].observedAt
    requires record.id == observations[k].id && o.id == record.id
    ensures var all := observations + [o];
      LatestOf(all, best) && Merge(record, o).content == all[best].content &&
        Merge(record, o).observedAt == all[best].observedAt
      && Merge(record, o).id == all[best].id
  {
    hide SortedSet;
    var all := observations + [o];
    var n := |observations|;
    if Less(o.observedAt, record.observedAt) {
      best := k;
      LessAsymmetric(o.observedAt, record.observedAt);
    } else {
      best := n;
      forall j | 0 <= j < |all| ensures !Less(all[best].observedAt, all[j].observedAt) {
        if j < n {
          NotBefore(o.observedAt, observations[k].observedAt, observations[j].observedAt);
        } else {
          NotBeforeItself(o.observedAt);
        }
      }
    }
  }

  lemma NotBeforeItself(t: Text)
    ensures !Less(t, t)
  {
    if Less(t, t) { LessAsymmetric(t, t); }
  }

  lemma NotBefore(a: Text, b: Text, c: Text)
    requires !Less(a, b) && !Less(b, c)
    ensures !Less(a, c)
  {
    if Less(a, c) {
      if a != b {
        LessTotal(a, b);
        LessTransitive(b, a, c);
      }
    }
  }

  lemma MergeSummary(record: Observation, observations: seq<Observation>, o: Observation)
    requires Summarises(record, observations) && o.id == record.id
    ensures Summarises(Merge(record, o), observations + [o])
  {
    hide SortedSet;
    var all := observations + [o];
    assert all[..|all| - 1] == observations;
    SortedUnion(AllHits(observations), o.hits);
    SortedUnion(AllRefs(observations), o.refs);
    var k: nat :| LatestOf(observations, k) && record.content == observations[k].content &&
      record.observedAt == observations[k].observedAt && record.id == observations[k].id;
    var best := MergeLatest(record, observations, o, k);
  }

  /** Each record sums up exactly the observations of its tweet, in the order they were made: sorted
      unions of hits and references, everything else from the last one with the greatest timestamp. */
  lemma {:induction false} RecordsSummarise(observations: seq<Observation>, id: Text)
    requires forall i :: 0 <= i < |observations| ==> Fresh(observations[i])
    ensures var records := ObserveAll(map[], observations);
      && (id in records <==> |About(observations, id)| > 0)
      && (id in records ==> records[id].id == id && Summarises(records[id], About(observations, id)))
    decreases |observations|
  {
    hide Summarises, Merge, Fresh;
    if |observations| > 0 {
      var n := |observations| - 1;
      var before, o := observations[..n], observations[n];
      RecordsSummarise(before, id);
      assert observations == before + [o];
      ObserveStep(map[], before, o);
      hide ObserveAll, AllHits, AllRefs;
      if o.id == id {
        if id in ObserveAll(map[], before) {
          MergeSummary(ObserveAll(map[], before)[id], About(before, id), o);
          assert Merge(ObserveAll(map[], before)[id], o).id == id by { MergeKeepsId(ObserveAll(map[], before)[id], o); }
        } else {
          FirstSummary(o);
          assert About(before, id) == [];
          assert About(observations, id) == [o];
        }
      } else {
        assert About(observations, id) == About(before, id);
      }
    }
  }

  lemma MergeKeepsId(a: Observation, b: Observation)
    requires a.id == b.id
    ensures Merge(a, b).id == a.id
  {
  }

  // Pages and their replay ---------------------------------------------------------------------

  /** An archived page. */
  datatype ArchivedPage = ArchivedPage(unit: Text, query: string, number: nat, inputCursor: Text, nextCursor: Text,
    fetchedAt: Text, nodes: seq<Node>)

  /** raw_pages.jsonl:<page>:<unit> */
  type RefNames = (nat, Text) -> Text

  function Normalize(refs: RefNames, page: ArchivedPage, node: Node): Observation {
    Observation(node.id, node.content, page.fetchedAt, [page.unit], [refs(page.number, page.unit)])
  }

  predicate Numeric(id: Text) {
    |id| > 0 && forall i :: 0 <= i < |id| ==> IsDigit(id[i])
  }

  /** What the crawl takes from a page: tweets with a numeric id. */
  function LiveObservations(refs: RefNames, page: ArchivedPage, n: nat): seq<Observation>
    requires n <= |page.nodes|
  {
    if n == 0 then []
    else
      var node := page.nodes[n - 1];
      LiveObservations(refs, page, n - 1) + if Numeric(node.id) then [Normalize(refs, page, node)] else []
  }

  /** What replaying the archive takes from it: tweets with any id. */
  function ReplayObservations(refs: RefNames, page: ArchivedPage, n: nat): seq<Observation>
    requires n <= |page.nodes|
  {
    if n == 0 then []
    else
      var node := page.nodes[n - 1];
      ReplayObservations(refs, page, n - 1) + if node.id != [] then [Normalize(refs, page, node)] else []
  }

  function Live(refs: RefNames, records: map<Text, Observation>, page: ArchivedPage): map<Text, Observation> {
    ObserveAll(records, LiveObservations(refs, page, |page.nodes|))
  }

  function Replay(refs: RefNames, records: map<Text, Observation>, page: ArchivedPage): map<Text, Observation> {
    ObserveAll(records, ReplayObservations(refs, page, |page.nodes|))
  }

  /** Every tweet has a numeric id or none. */
  ghost predicate PlainIds(nodes: seq<Node>) {
    forall i :: 0 <= i < |nodes| && nodes[i].id != [] ==> Numeric(nodes[i].id)
  }

  lemma {:induction false} SameObservations(refs: RefNames, page: ArchivedPage, n: nat)
    requires n <= |page.nodes| && PlainIds(page.nodes)
    ensures LiveObservations(refs, page, n) == ReplayObservations(refs, page, n)
  {
    if n > 0 { SameObservations(refs, page, n - 1); }
  }

  lemma {:induction false} LiveKeys(refs: RefNames, records: map<Text, Observation>, page: ArchivedPage, n: nat,
      id: Text)
    requires n <= |page.nodes| && id !in records && !Numeric(id)
    ensures id !in ObserveAll(records, LiveObservations(refs, page, n))
  {
    if n > 0 {
      LiveKeys(refs, records, page, n - 1, id);
      var before := LiveObservations(refs, page, n - 1);
      ObserveStep(records, before, Normalize(refs, page, page.nodes[n - 1]));
      assert before + [] == before;
    }
  }

  lemma {:induction false} ReplayKeys(refs: RefNames, records: map<Text, Observation>, page: ArchivedPage, n: nat,
      i: nat)
    requires i < n <= |page.nodes| && page.nodes[i].id != []
    ensures page.nodes[i].id in ObserveAll(records, ReplayObservations(refs, page, n))
  {
    var before := ReplayObservations(refs, page, n - 1);
    ObserveStep(records, before, Normalize(refs, page, page.nodes[n - 1]));
    assert before + [] == before;
    if i < n - 1 { ReplayKeys(refs, records, page, n - 1, i); }
  }

  // Replaying an archive -----------------------------------------------------------------------

  /** The pages of one unit, in archive order. */
  function UnitPages(archive: seq<ArchivedPage>, unit: Text): seq<ArchivedPage> {
    if |archive| == 0 then []
    else
      var last := archive[|archive| - 1];
      UnitPages(archive[..|archive| - 1], unit) + if last.unit == unit then [last] else []
  }

  function ReplayPages(refs: RefNames, records: map<Text, Observation>, pages: seq<ArchivedPage>):
      map<Text, Observation>
  {
    if |pages| == 0 then records else Replay(refs, ReplayPages(refs, records, pages[..|pages| - 1]), pages[|pages| - 1])
  }

  function LivePages(refs: RefNames, records: map<Text, Observation>, pages: seq<ArchivedPage>):
      map<Text, Observation>
  {
    if |pages| == 0 then records else Live(refs, LivePages(refs, records, pages[..|pages| - 1]), pages[|pages| - 1])
  }

  /** The records that replaying the archive gives, unit after unit. */
  function ReplayUnits(refs: RefNames, archive: seq<ArchivedPage>, units: seq<Text>): map<Text, Observation> {
    if |units| == 0 then map[]
    else ReplayPages(refs, ReplayUnits(refs, archive, units[..|units| - 1]), UnitPages(archive, units[|units| - 1]))
  }

  lemma UnitPagesStep(archive: seq<ArchivedPage>, page: ArchivedPage, unit: Text)
    ensures UnitPages(archive + [page], unit) == UnitPages(archive, unit) + if page.unit == unit then [page] else []
  {
    assert (archive + [page])[..|archive|] == archive;
  }

  lemma {:induction false} UnitPagesConcat(a: seq<ArchivedPage>, b: seq<ArchivedPage>, unit: Text)
    ensures UnitPages(a + b, unit) == UnitPages(a, unit) + UnitPages(b, unit)
  {
    if |b| == 0 {
      assert a + b == a;
    } else {
      var n := |b| - 1;
      UnitPagesConcat(a, b[..n], unit);
      assert (a + b)[..|a + b| - 1] == a + b[..n];
    }
  }

  lemma {:induction false} OwnPages(pages: seq<ArchivedPage>, unit: Text)
    requires forall i :: 0 <= i < |pages| ==> pages[i].unit == unit
    ensures UnitPages(pages, unit) == pages
  {
    if |pages| > 0 { OwnPages(pages[..|pages| - 1], unit); }
  }

  lemma {:induction false} OtherPages(pages: seq<ArchivedPage>, unit: Text)
    requires forall i :: 0 <= i < |pages| ==> pages[i].unit != unit
    ensures UnitPages(pages, unit) == []
  {
    if |pages| > 0 { OtherPages(pages[..|pages| - 1], unit); }
  }

  lemma ReplayPagesStep(refs: RefNames, records: map<Text, Observation>, pages: seq<ArchivedPage>, page: ArchivedPage)
    ensures ReplayPages(refs, records, pages + [page]) == Replay(refs, ReplayPages(refs, records, pages), page)
  {
    assert (pages + [page])[..|pages|] == pages;
  }

  lemma LivePagesStep(refs: RefNames, records: map<Text, Observation>, pages: seq<ArchivedPage>, page: ArchivedPage)
    ensures LivePages(refs, records, pages + [page]) == Live(refs, LivePages(refs, records, pages), page)
  {
    assert (pages + [page])[..|pages|] == pages;
  }

  lemma {:induction false} ReplayPagesConcat(refs: RefNames, records: map<Text, Observation>, a: seq<ArchivedPage>,
      b: seq<ArchivedPage>)
    ensures ReplayPages(refs, records, a + b) == ReplayPages(refs, ReplayPages(refs, records, a), b)
  {
    hide Replay;
    if |b| == 0 {
      assert a + b == a;
    } else {
      var n := |b| - 1;
      ReplayPagesConcat(refs, records, a, b[..n]);
      assert (a + b)[..|a + b| - 1] == a + b[..n];
    }
  }

  /** Every tweet of these pages has a numeric id or none. */
  ghost predicate AllPlain(pages: seq<ArchivedPage>) {
    forall i :: 0 <= i < |pages| ==> PlainIds(pages[i].nodes)
  }

  lemma {:induction false} PlainPagesSame(refs: RefNames, records: map<Text, Observation>, pages: seq<ArchivedPage>)
    requires AllPlain(pages)
    ensures LivePages(refs, records, pages) == ReplayPages(refs, records, pages)
  {
    if |pages| > 0 {
      var n := |pages| - 1;
      PlainPagesSame(refs, records, pages[..n]);
      SameObservations(refs, pages[n], |pages[n].nodes|);
    }
  }

  lemma {:induction false} LivePagesKeys(refs: RefNames, records: map<Text, Observation>, pages: seq<ArchivedPage>,
      id: Text)
    requires id !in records && !Numeric(id)
    ensures id !in LivePages(refs, records, pages)
  {
    if |pages| > 0 {
      var n := |pages| - 1;
      LivePagesKeys(refs, records, pages[..n], id);
      LiveKeys(refs, LivePages(refs, records, pages[..n]), pages[n], |pages[n].nodes|, id);
    }
  }

  lemma {:induction false} ReplayPagesKeys(refs: RefNames, records: map<Text, Observation>, pages: seq<ArchivedPage>,
      i: nat, k: nat)
    requires i < |pages| && k < |pages[i].nodes| && pages[i].nodes[k].id != []
    ensures pages[i].nodes[k].id in ReplayPages(refs, records, pages)
  {
    var n := |pages| - 1;
    var before := ReplayPages(refs, records, pages[..n]);
    if i == n {
      ReplayKeys(refs, before, pages[n], |pages[n].nodes|, k);
    } else {
      ReplayPagesKeys(refs, records, pages[..n], i, k);
      ObserveGrows(before, ReplayObservations(refs, pages[n], |pages[n].nodes|));
    }
  }

  /** Replaying pages gives what crawling them gave exactly when every tweet on them has a numeric id
      or none. */
  lemma {:induction false} ReplayPagesAgree(refs: RefNames, records: map<Text, Observation>, pages: seq<ArchivedPage>)
    requires forall id :: id in records ==> Numeric(id)
    ensures ReplayPages(refs, records, pages) == LivePages(refs, records, pages) <==> AllPlain(pages)
  {
    if AllPlain(pages) {
      PlainPagesSame(refs, records, pages);
    } else {
      var i :| 0 <= i < |pages| && !PlainIds(pages[i].nodes);
      var k :| 0 <= k < |pages[i].nodes| && pages[i].nodes[k].id != [] && !Numeric(pages[i].nodes[k].id);
      ReplayPagesKeys(refs, records, pages, i, k);
      LivePagesKeys(refs, records, pages, pages[i].nodes[k].id);
    }
  }
}
