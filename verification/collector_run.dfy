/** A whole run of the collector, fresh or resumed: the records it ends with are those of replaying
    its archive. */
module CollectorRun {
  import opened Json
  import opened Collector
  import opened CollectorUnit
  import opened CollectorTalk
  import opened CollectorCrawl

  const UNIT_COUNT: nat := 20

  function RowOf(k: nat): QueryRow
    requires k < UNIT_COUNT
  {
    QUERY_MATRIX[k / 2]
  }

  function ModeOf(k: nat): string { MODES[k % 2] }

  /** The k-th unit, each query in each mode. */
  function UnitId(k: nat): Text
    requires k < UNIT_COUNT
  {
    Ascii(RowOf(k).id + ":" + ModeOf(k))
  }

  /** The first n units. */
  function Units(n: nat): (units: seq<Text>)
    requires n <= UNIT_COUNT
    ensures |units| == n && forall k :: 0 <= k < n ==> units[k] == UnitId(k)
  {
    seq(n, k requires 0 <= k < n => UnitId(k))
  }

  lemma RowName(r: nat)
    requires r < 10
    ensures var name := QUERY_MATRIX[r].id;
      |name| == 3 && (name[1] as int - 48) * 10 + (name[2] as int - 48) == r + 1 && name[1] < 128 as char &&
        name[2] < 128 as char
  {
  }

  lemma UnitShape(k: nat)
    requires k < UNIT_COUNT
    ensures |UnitId(k)| == (if k % 2 == 0 then 10 else 7)
    ensures (UnitId(k)[1] - 48) as int * 10 + UnitId(k)[2] as int - 48 == k / 2 + 1
  {
    RowName(k / 2);
    assert |ModeOf(k)| == if k % 2 == 0 then 6 else 3;
    hide QUERY_MATRIX, MODES;
  }

  lemma {:induction false} UnitsDiffer(j: nat, k: nat)
    requires j < k < UNIT_COUNT
    ensures UnitId(j) != UnitId(k)
  {
    hide UnitId;
    UnitShape(j);
    UnitShape(k);
  }

  // Replaying is observing ---------------------------------------------------------------------

  function PageObservations(refs: RefNames, page: ArchivedPage): seq<Observation> {
    ReplayObservations(refs, page, |page.nodes|)
  }

  function PagesObservations(refs: RefNames, pages: seq<ArchivedPage>): seq<Observation> {
    if |pages| == 0 then []
    else PagesObservations(refs, pages[..|pages| - 1]) + PageObservations(refs, pages[|pages| - 1])
  }

  /** Every observation of the archive, unit after unit. */
  function Observations(refs: RefNames, archive: seq<ArchivedPage>, units: seq<Text>): seq<Observation> {
    if |units| == 0 then []
    else
      var n := |units| - 1;
      Observations(refs, archive, units[..n]) + PagesObservations(refs, UnitPages(archive, units[n]))
  }

  lemma {:induction false} PagesAreObserved(refs: RefNames, records: map<Text, Observation>, pages: seq<ArchivedPage>)
    ensures ReplayPages(refs, records, pages) == ObserveAll(records, PagesObservations(refs, pages))
  {
    hide ObserveAll, ReplayObservations;
    if |pages| == 0 {
      ObserveNothing(records);
    } else {
      var n := |pages| - 1;
      PagesAreObserved(refs, records, pages[..n]);
      ObserveConcat(records, PagesObservations(refs, pages[..n]), PageObservations(refs, pages[n]));
    }
  }

  lemma ObserveNothing(records: map<Text, Observation>)
    ensures ObserveAll(records, []) == records
  {
  }

  lemma {:induction false} UnitsAreObserved(refs: RefNames, archive: seq<ArchivedPage>, units: seq<Text>)
    ensures ReplayUnits(refs, archive, units) == ObserveAll(map[], Observations(refs, archive, units))
  {
    hide ObserveAll, PagesObservations, UnitPages, ReplayPages;
    if |units| == 0 {
      ObserveNothing(map[]);
    } else {
      var n := |units| - 1;
      UnitsAreObserved(refs, archive, units[..n]);
      PagesAreObserved(refs, ReplayUnits(refs, archive, units[..n]), UnitPages(archive, units[n]));
      ObserveConcat(map[], Observations(refs, archive, units[..n]),
        PagesObservations(refs, UnitPages(archive, units[n])));
    }
  }

  lemma {:induction false} PageFresh(refs: RefNames, page: ArchivedPage, n: nat)
    requires n <= |page.nodes|
    ensures forall i :: 0 <= i < |ReplayObservations(refs, page, n)| ==> Fresh(ReplayObservations(refs, page, n)[i])
  {
    if n > 0 { PageFresh(refs, page, n - 1); }
  }

  lemma {:induction false} PagesFresh(refs: RefNames, pages: seq<ArchivedPage>)
    ensures forall i :: 0 <= i < |PagesObservations(refs, pages)| ==> Fresh(PagesObservations(refs, pages)[i])
  {
    hide Fresh, ReplayObservations;
    if |pages| > 0 {
      PagesFresh(refs, pages[..|pages| - 1]);
      PageFresh(refs, pages[|pages| - 1], |pages[|pages| - 1].nodes|);
    }
  }

  lemma {:induction false} ObservationsFresh(refs: RefNames, archive: seq<ArchivedPage>, units: seq<Text>)
    ensures forall i :: 0 <= i < |Observations(refs, archive, units)| ==> Fresh(Observations(refs, archive, units)[i])
  {
    hide Fresh, PagesObservations;
    if |units| > 0 {
      ObservationsFresh(refs, archive, units[..|units| - 1]);
      PagesFresh(refs, UnitPages(archive, units[|units| - 1]));
    }
  }

  /** What the replayed records say of a tweet: it is there when some archived page of these units
      shows it, and sums up exactly those observations. */
  lemma {:induction false} ReplayMeaning(refs: RefNames, archive: seq<ArchivedPage>, units: seq<Text>, id: Text)
    ensures var about := About(Observations(refs, archive, units), id);
      var records := ReplayUnits(refs, archive, units);
      (id in records <==> |about| > 0) && (id in records ==> Summarises(records[id], about))
  {
    hide Fresh, Summarises, About, Observations, ReplayUnits, ObserveAll;
    UnitsAreObserved(refs, archive, units);
    ObservationsFresh(refs, archive, units);
    RecordsSummarise(Observations(refs, archive, units), id);
  }

  // The run ------------------------------------------------------------------------------------

  /** The records of a run that found the archive `first` and added the pages `added`: unit after unit,
      the replay of the pages found and then the pages added, as they were crawled. */
  function LiveUnits(refs: RefNames, first: seq<ArchivedPage>, added: seq<ArchivedPage>, units: seq<Text>):
      map<Text, Observation>
  {
    if |units| == 0 then map[]
    else
      var n := |units| - 1;
      var base := ReplayPages(refs, LiveUnits(refs, first, added, units[..n]), UnitPages(first, units[n]));
      LivePages(refs, base, UnitPages(added, units[n]))
  }

  lemma {:induction false} PlainUnitsSame(refs: RefNames, first: seq<ArchivedPage>, added: seq<ArchivedPage>,
      units: seq<Text>)
    requires AllPlain(added)
    ensures LiveUnits(refs, first, added, units) == ReplayUnits(refs, first + added, units)
  {
    hide ReplayPages, LivePages, UnitPages;
    if |units| > 0 {
      var n := |units| - 1;
      PlainUnitsSame(refs, first, added, units[..n]);
      var before := LiveUnits(refs, first, added, units[..n]);
      UnitPagesConcat(first, added, units[n]);
      ReplayPagesConcat(refs, before, UnitPages(first, units[n]), UnitPages(added, units[n]));
      PlainOfUnit(added, units[n]);
      PlainPagesSame(refs, ReplayPages(refs, before, UnitPages(first, units[n])), UnitPages(added, units[n]));
    }
  }

  lemma {:induction false} PlainOfUnit(pages: seq<ArchivedPage>, unit: Text)
    requires AllPlain(pages)
    ensures AllPlain(UnitPages(pages, unit))
  {
    if |pages| > 0 { PlainOfUnit(pages[..|pages| - 1], unit); }
  }

  /** Pages of another unit do not disturb the units already processed. */
  lemma {:induction false} OtherUnitsSame(refs: RefNames, first: seq<ArchivedPage>, added: seq<ArchivedPage>,
      pages: seq<ArchivedPage>, units: seq<Text>)
    requires forall i :: 0 <= i < |pages| ==> pages[i].unit !in units
    ensures LiveUnits(refs, first, added + pages, units) == LiveUnits(refs, first, added, units)
  {
    hide ReplayPages, LivePages, UnitPages;
    if |units| > 0 {
      var n := |units| - 1;
      assert units[n] in units;
      OtherUnitsSame(refs, first, added, pages, units[..n]);
      UnitPagesConcat(added, pages, units[n]);
      OtherPages(pages, units[n]);
      assert UnitPages(added, units[n]) + [] == UnitPages(added, units[n]);
    }
  }

  /** The units from the k-th on have no new pages yet. */
  ghost predicate Untouched(added: seq<ArchivedPage>, k: nat) {
    forall j :: k <= j < UNIT_COUNT ==> UnitPages(added, UnitId(j)) == []
  }

  lemma UntouchedAt(added: seq<ArchivedPage>, k: nat)
    requires Untouched(added, k) && k < UNIT_COUNT
    ensures UnitPages(added, UnitId(k)) == []
  {
  }

  lemma NothingAdded(refs: RefNames, first: seq<ArchivedPage>)
    ensures Untouched([], 0) && LiveUnits(refs, first, [], Units(0)) == map[] && first + [] == first
  {
  }

  lemma LaterUntouched(added: seq<ArchivedPage>, pages: seq<ArchivedPage>, k: nat)
    requires k < UNIT_COUNT && Untouched(added, k) && forall i :: 0 <= i < |pages| ==> pages[i].unit == UnitId(k)
    ensures Untouched(added + pages, k + 1)
  {
    hide UnitPages, UnitId;
    forall j | k + 1 <= j < UNIT_COUNT ensures UnitPages(added + pages, UnitId(j)) == [] {
      UnitsDiffer(k, j);
      UnitPagesConcat(added, pages, UnitId(j));
      OtherPages(pages, UnitId(j));
    }
  }

  lemma NotYet(k: nat)
    requires k < UNIT_COUNT
    ensures UnitId(k) !in Units(k)
  {
    hide UnitId;
    forall j | 0 <= j < k ensures UnitId(j) != UnitId(k) { UnitsDiffer(j, k); }
  }

  lemma UnitDone(refs: RefNames, first: seq<ArchivedPage>, added: seq<ArchivedPage>, pages: seq<ArchivedPage>, k: nat)
    requires k < UNIT_COUNT && Untouched(added, k) && forall i :: 0 <= i < |pages| ==> pages[i].unit == UnitId(k)
    ensures UnitPages(first + added, UnitId(k)) == UnitPages(first, UnitId(k)) && Untouched(added + pages, k + 1)
    ensures LiveUnits(refs, first, added + pages, Units(k + 1)) ==
      LivePages(
        refs, ReplayPages(refs, LiveUnits(refs, first, added, Units(k)), UnitPages(first, UnitId(k))), pages)
  {
    hide UnitPages, ReplayPages, LivePages, UnitId;
    UntouchedAt(added, k);
    LaterUntouched(added, pages, k);
    hide Untouched;
    UnitPagesConcat(first, added, UnitId(k));
    UnitPagesConcat(added, pages, UnitId(k));
    OwnPages(pages, UnitId(k));
    assert [] + pages == pages && UnitPages(first, UnitId(k)) + [] == UnitPages(first, UnitId(k));
    assert Units(k + 1)[..k] == Units(k);
    NotYet(k);
    OtherUnitsSame(refs, first, added, pages, Units(k));
  }

  /** The servers, one a unit, each with these numeric ids to show. */
  ghost predicate AllShow(servers: nat -> Server, ids: set<Text>) {
    forall k :: Shows(servers(k), ids)
  }

  lemma ShowsAt(servers: nat -> Server, ids: set<Text>, k: nat)
    requires AllShow(servers, ids)
    ensures Shows(servers(k), ids)
  {
  }

  /** What every ledger says of its unit. */
  ghost predicate Coherent(ledger: Ledger) {
    && (ledger.status == Complete <==> ClosedStop(ledger.stop))
    && ledger.requestCount == ledger.pageCount + ledger.retryCount
  }

  /** A run's surroundings: the server, the clock and the numeric ids it may show for each unit, the cap,
      and the archive found. */
  datatype World = World(
    servers: nat -> Server, clocks: nat -> (nat -> Text), ids: set<Text>, maxPages: nat,
    refs: RefNames, first: seq<ArchivedPage>)

  /** The setting of the k-th unit in a run that adds these pages. */
  ghost function SettingOf(w: World, added: seq<ArchivedPage>, k: nat): Setting
    requires k < UNIT_COUNT
  {
    UnitSetting(RowOf(k), ModeOf(k), UnitId(k), w.servers(k), w.clocks(k), w.maxPages, w.refs, w.first,
                LiveUnits(w.refs, w.first, added, Units(k)), w.ids)
  }

  /** The calls of the k-th unit account for its ledger and for the pages added for it. */
  ghost predicate UnitTold(w: World, added: seq<ArchivedPage>, k: nat, trace: seq<Call>, ledger: Ledger)
    requires k < UNIT_COUNT
  {
    var c := SettingOf(w, added, k);
    && Told(c, trace, ledger) && UnitPages(added, UnitId(k)) == PagesOf(c, trace)
    && FromServer(c, PagesOf(c, trace), |trace|)
  }

  /** Pages of a later unit change nothing of an earlier one. */
  lemma UnitStays(w: World, added: seq<ArchivedPage>, pages: seq<ArchivedPage>, j: nat, k: nat, trace: seq<Call>,
      ledger: Ledger)
    requires j < k < UNIT_COUNT
    requires forall i :: 0 <= i < |pages| ==> pages[i].unit == UnitId(k)
    requires UnitTold(w, added, j, trace, ledger)
    ensures UnitTold(w, added + pages, j, trace, ledger)
  {
    hide UnitPages, UnitId, Told, PagesOf, LiveUnits, FromServer;
    UnitsDiffer(j, k);
    UnitPagesConcat(added, pages, UnitId(j));
    OtherPages(pages, UnitId(j));
    assert UnitPages(added, UnitId(j)) + [] == UnitPages(added, UnitId(j));
    forall i | 0 <= i < j ensures UnitId(i) != UnitId(k) { UnitsDiffer(i, k); }
    OtherUnitsSame(w.refs, w.first, added, pages, Units(j));
  }

  /** The unit just crawled. */
  lemma UnitTells(w: World, added: seq<ArchivedPage>, pages: seq<ArchivedPage>, k: nat, trace: seq<Call>,
      ledger: Ledger)
    requires k < UNIT_COUNT && Untouched(added, k)
    requires forall i :: 0 <= i < |pages| ==> pages[i].unit == UnitId(k)
    requires var c := UnitSetting(RowOf(k), ModeOf(k), UnitId(k), w.servers(k), w.clocks(k), w.maxPages, w.refs,
                        w.first + added, LiveUnits(w.refs, w.first, added, Units(k)), w.ids);
      Told(c, trace, ledger) && pages == PagesOf(c, trace) && FromServer(c, pages, |trace|)
    ensures UnitTold(w, added + pages, k, trace, ledger)
  {
    hide UnitPages, UnitId, Told, PagesOf, LiveUnits, ReplayPages, Untouched, FromServer;
    UntouchedAt(added, k);
    UnitPagesConcat(w.first, added, UnitId(k));
    UnitPagesConcat(added, pages, UnitId(k));
    OwnPages(pages, UnitId(k));
    assert [] + pages == pages && UnitPages(w.first, UnitId(k)) + [] == UnitPages(w.first, UnitId(k));
    NotYet(k);
    OtherUnitsSame(w.refs, w.first, added, pages, Units(k));
  }

  /** The k-th unit, in a run that has added `added` so far. */
  method RunUnit(crawler: Crawler, server: Server, clock: nat -> Text, maxPages: nat, k: nat,
      ghost w: World, ghost added: seq<ArchivedPage>)
    returns (ledger: Ledger, ghost pages: seq<ArchivedPage>, ghost trace: seq<Call>)
    requires k < UNIT_COUNT && (maxPages == 0 ==> Shows(server, w.ids))
    requires w.servers(k) == server && w.clocks(k) == clock && w.maxPages == maxPages && w.refs == crawler.refs
    requires crawler.archive == w.first + added && Untouched(added, k)
    requires crawler.records == LiveUnits(crawler.refs, w.first, added, Units(k))
    modifies crawler
    ensures crawler.archive == w.first + (added + pages) && Untouched(added + pages, k + 1)
    ensures crawler.records == LiveUnits(crawler.refs, w.first, added + pages, Units(k + 1))
    ensures Coherent(ledger) && UnitTold(w, added + pages, k, trace, ledger)
    ensures forall i :: 0 <= i < |pages| ==> pages[i].unit == UnitId(k)
  {
    hide LiveUnits, UnitPages, ReplayPages, LivePages, UnitId, Untouched, Units, Shows, StopExplained, Told, PagesOf,
      UnitSetting, UnitTold, FromServer, NothingToAsk, Numeric;
    MatrixFallbacksDiffer(k / 2);
    ledger, pages, trace :=
      crawler.CrawlUnit(RowOf(k), ModeOf(k), UnitId(k), server, clock, maxPages, w.ids);
    UnitDone(crawler.refs, w.first, added, pages, k);
    UnitTells(w, added, pages, k, trace, ledger);
  }

  /** Processes every unit. An empty archive makes it a fresh run, any other a resumed one. */
  method Run(crawler: Crawler, servers: nat -> Server, clocks: nat -> (nat -> Text), maxPages: nat,
      ghost ids: set<Text>)
    returns (ledgers: seq<Ledger>, ghost added: seq<ArchivedPage>, ghost traces: seq<seq<Call>>)
    requires crawler.records == map[] && (maxPages == 0 ==> AllShow(servers, ids))
    modifies crawler
    ensures crawler.archive == old(crawler.archive) + added
    ensures crawler.records == LiveUnits(crawler.refs, old(crawler.archive), added, Units(UNIT_COUNT))
    ensures AllPlain(added) ==> crawler.records == ReplayUnits(crawler.refs, crawler.archive, Units(UNIT_COUNT))
    ensures |ledgers| == |traces| == UNIT_COUNT
    ensures var w := World(servers, clocks, ids, maxPages, crawler.refs, old(crawler.archive));
      forall k :: 0 <= k < UNIT_COUNT ==> Coherent(ledgers[k]) && UnitTold(w, added, k, traces[k], ledgers[k])
  {
    hide *;
    ledgers, added, traces := [], [], [];
    ghost var w := World(servers, clocks, ids, maxPages, crawler.refs, crawler.archive);
    NothingAdded(crawler.refs, w.first);
    for k := 0 to UNIT_COUNT
      invariant crawler.archive == w.first + added && Untouched(added, k)
      invariant crawler.records == LiveUnits(crawler.refs, w.first, added, Units(k))
      invariant |ledgers| == |traces| == k
      invariant forall j :: 0 <= j < k ==> Coherent(ledgers[j]) && UnitTold(w, added, j, traces[j], ledgers[j])
    {
      hide *;
      if maxPages == 0 { ShowsAt(servers, ids, k); }
      var ledger;
      ghost var pages, trace;
      ledger, pages, trace := RunUnit(crawler, servers(k), clocks(k), maxPages, k, w, added);
      forall j | 0 <= j < k ensures UnitTold(w, added + pages, j, traces[j], ledgers[j]) {
        UnitStays(w, added, pages, j, k, traces[j], ledgers[j]);
      }
      ledgers, added, traces := ledgers + [ledger], added + pages, traces + [trace];
    }
    if AllPlain(added) { PlainUnitsSame(crawler.refs, w.first, added, Units(UNIT_COUNT)); }
  }
}
