/** The crawl: each unit of the query matrix is replayed from the archive and then paged through,
    whatever the server answers. */
module CollectorCrawl {
  import opened Contracts
  import opened Json
  import opened Collector
  import opened CollectorUnit
  import opened CollectorTalk

  // The crawler --------------------------------------------------------------------------------

  class Crawler {
    var archive: seq<ArchivedPage>
    var records: map<Text, Observation>
    const refs: RefNames

    constructor (archive: seq<ArchivedPage>, refs: RefNames)
      ensures this.archive == archive && this.refs == refs && records == map[]
    {
      this.archive := archive;
      this.refs := refs;
      records := map[];
    }

    /** Merges an archived page's tweets into the records. */
    method ReplayPage(page: ArchivedPage)
      modifies this`records
      ensures records == Replay(refs, old(records), page)
    {
      for k := 0 to |page.nodes|
        invariant records == ObserveAll(old(records), ReplayObservations(refs, page, k))
      {
        ghost var before := ReplayObservations(refs, page, k);
        var node := page.nodes[k];
        if node.id != [] {
          var normalized := Normalize(refs, page, node);
          ObserveStep(old(records), before, normalized);
          if node.id in records {
            records := records[node.id := Merge(records[node.id], normalized)];
          } else {
            records := records[node.id := normalized];
          }
        }
        assert before + [] == before;
      }
    }

    /** Merges a fetched page's tweets, counting the ones not seen before. */
    method TakePage(page: ArchivedPage) returns (pageNew: nat)
      modifies this`records
      ensures records == Live(refs, old(records), page)
      ensures old(records).Keys <= records.Keys && |records.Keys| == |old(records).Keys| + pageNew
    {
      hide Merge, Normalize, Numeric, LiveObservations, Observe;
      pageNew := 0;
      assert LiveObservations(refs, page, 0) == [] by { NoObservations(refs, page); }
      for k := 0 to |page.nodes|
        invariant records == ObserveAll(old(records), LiveObservations(refs, page, k))
        invariant old(records).Keys <= records.Keys && |records.Keys| == |old(records).Keys| + pageNew
      {
        var node := page.nodes[k];
        LiveStep(refs, old(records), page, k);
        if Numeric(node.id) {
          var normalized := Normalize(refs, page, node);
          ObserveCases(records, normalized);
          NormalizedId(refs, page, node);
          if node.id !in records {
            pageNew := pageNew + 1;
            records := records[node.id := normalized];
          } else {
            records := records[node.id := Merge(records[node.id], normalized)];
          }
        }
      }
    }

    /** Replays the unit's archived pages. */
    method ReplayPrior(prior: seq<ArchivedPage>)
      modifies this`records
      ensures records == ReplayPages(refs, old(records), prior)
    {
      for p := 0 to |prior|
        invariant records == ReplayPages(refs, old(records), prior[..p])
      {
        ReplayPage(prior[p]);
        assert prior[..p + 1] == prior[..p] + [prior[p]];
        ReplayPagesStep(refs, old(records), prior[..p], prior[p]);
      }
      assert prior[..|prior|] == prior;
    }

    /** Fetches one page's tweets into the archive and the records. */
    method StorePage(page: ArchivedPage, ghost c: Setting, ghost p: Progress, ghost pages: seq<ArchivedPage>)
      returns (pageNew: nat)
      requires c.refs == refs && records == c.After(pages) && p.stop.None? && !c.CapReached(p)
      requires page.unit == c.unit && page.number == |c.prior| + |pages| + 1
      requires page.query == p.query && page.inputCursor == p.cursor
      requires c.finite ==> NumericWithin(page.nodes, c.ids)
      modifies this
      ensures archive == old(archive) + [page]
      ensures records == c.After(pages + [page]) && NextPage(c, p, pages, page, pageNew)
    {
      hide LivePages;
      archive := archive + [page];
      pageNew := TakePage(page);
      if c.finite { LiveKeysWithin(refs, old(records), page, |page.nodes|, c.ids); }
      LivePagesStep(refs, c.base, pages, page);
    }

    /** One turn of the unit loop below its cap: a request and what follows from the answer. `trace`
        are the calls made. */
    method Ask(row: QueryRow, mode: string, unit: Text, server: Server, clock: nat -> Text, p: Progress, calls: nat,
        ghost c: Setting, ghost pages: seq<ArchivedPage>, ghost trace: seq<Call>)
      returns (q: Progress, ghost morePages: seq<ArchivedPage>)
      requires c.row == row && c.mode == mode && c.unit == unit && c.server == server && c.clock == clock
      requires c.refs == refs && FallbackDiffers(row) && (c.finite ==> Shows(server, c.ids))
      requires p.stop.None? && !c.CapReached(p) && records == c.After(pages) && Kept(c, p, pages, calls)
      requires Talk(c, p, pages, trace) && calls == |trace|
      modifies this
      ensures pages <= morePages && archive == old(archive) + morePages[|pages|..]
      ensures records == c.After(morePages) && Kept(c, q, morePages, calls + 1)
      ensures var request := Request(p.query, mode, p.cursor);
        Talk(c, q, morePages, trace + [Call(request, server(request, calls))])
      ensures q.stop.None? && (c.maxPages > 0 || c.finite) ==> Measure(c, q, morePages) < Measure(c, p, pages)
    {
      hide Kept, Measure, Shows, LivePages, NumericWithin, Talk;
      morePages := pages;
      BelowCap(c, p, pages, calls, trace);
      match server(Request(p.query, mode, p.cursor), calls) {
        case Refused(status) =>
          if FallsBack(row, p, status) {
            FallbackKeeps(c, p, pages, calls);
            OwnPagesOnly(c, p, pages, calls);
            FallbackTalks(c, p, pages, trace, status);
            q := AfterFallback(row, p);
          } else {
            FailureKeeps(c, p, pages, calls, StopOfStatus(status));
            FailureTalks(c, p, pages, trace, StopOfStatus(status));
            q := AfterFailure(p, StopOfStatus(status));
          }
        case Broken =>
          FailureKeeps(c, p, pages, calls, ParseError);
          FailureTalks(c, p, pages, trace, ParseError);
          q := AfterFailure(p, ParseError);
        case Answered(nodes, next, retries) =>
          if c.finite { Shown(server, c.ids, Request(p.query, mode, p.cursor), calls); }
          PageNumber(c, p, pages, calls);
          var page := ArchivedPage(unit, p.query, p.pageNumber + 1, p.cursor, next, clock(calls), nodes);
          var pageNew := StorePage(page, c, p, pages);
          PageKeeps(c, p, pages, calls, page, retries, pageNew);
          PageTalks(c, p, pages, trace, page, retries, pageNew);
          q := AfterPage(p, next, retries, pageNew);
          morePages := pages + [page];
          assert morePages[|pages|..] == [page];
      }
    }

    /** One unit of the matrix. `pages` are the pages it adds and `trace` the calls it makes. With a
        page cap it ends whatever the server answers; without one it ends if the server has finitely
        many numeric ids to show, however it shows them and whatever else it shows. */
    method CrawlUnit(row: QueryRow, mode: string, unit: Text, server: Server, clock: nat -> Text, maxPages: nat,
        ghost ids: set<Text>)
      returns (ledger: Ledger, ghost pages: seq<ArchivedPage>, ghost trace: seq<Call>)
      requires FallbackDiffers(row) && (maxPages == 0 ==> Shows(server, ids))
      modifies this
      ensures archive == old(archive) + pages
      ensures var c :=
          UnitSetting(row, mode, unit, server, clock, maxPages, refs, old(archive), old(records), ids);
        Told(c, trace, ledger) && pages == PagesOf(c, trace) && FromServer(c, pages, |trace|)
      ensures var prior := UnitPages(old(archive), unit);
        var base := ReplayPages(refs, old(records), prior);
        && records == LivePages(refs, base, pages)
        && PagesInOrder(unit, |prior|, pages)
        && ledger.pageCount == |prior| + |pages|
        && StopExplained(refs, base, prior, maxPages, ledger.stop, pages, ledger.errors)
        && (Shows(server, ids) ==> |pages| <= 2 * |ids - base.Keys| + 3)
        && (|trace| == 0 <==> NothingToAsk(prior, maxPages))
      ensures AllPlain(pages) ==> records == ReplayPages(refs, old(records), UnitPages(archive, unit))
      ensures ledger.requestCount == ledger.pageCount + ledger.retryCount
      ensures ledger.status == if ClosedStop(ledger.stop) then Complete else Partial
      ensures |pages| > 0 && EndCursor(pages[|pages| - 1].nextCursor) ==> ledger.stop == NaturalEnd
      ensures maxPages > 0 && ledger.pageCount > maxPages ==> pages == []
    {
      hide Kept, Measure, LivePages, UnitPages, ReplayPages, PagesInOrder, Shows, NothingToAsk, Begin, StopExplained,
        Talk, Told, PagesOf, EndCursor, AllPlain, NextRequest, FromServer;
      var prior := UnitPages(archive, unit);
      var p := Begin(row, prior);
      var calls := 0;
      pages, trace := [], [];
      ghost var c := UnitSetting(row, mode, unit, server, clock, maxPages, refs, archive, records, ids);
      ReplayPrior(prior);
      BeginKeeps(c);
      BeginTalks(c);
      NoPagesYet(c);
      assert archive == old(archive) + pages;
      while p.stop.None?
        invariant archive == old(archive) + pages && calls == |trace|
        invariant records == c.After(pages) && Kept(c, p, pages, calls) && Talk(c, p, pages, trace)
        decreases p.stop.None?, Measure(c, p, pages)
      {
        KeptMeasure(c, p, pages, calls);
        if maxPages != 0 && p.pageNumber >= maxPages {
          CapKeeps(c, p, pages, calls);
          AtCap(c, p, pages, calls, trace);
          CapTalks(c, p, pages, trace);
          p := AfterCap(p);
        } else {
          ghost var request := Request(p.query, mode, p.cursor);
          p, pages := Ask(row, mode, unit, server, clock, p, calls, c, pages, trace);
          trace := trace + [Call(request, server(request, calls))];
          calls := calls + 1;
        }
      }
      ledger := Ledger(p.query, p.pageNumber, p.requestCount, p.retryCount, p.stop.value, p.cursor, p.status, p.errors);
      Finished(c, p, pages, calls);
      AllTold(c, p, pages, trace, ledger);
      ToldByServer(c, trace, ledger);
      NoPagesYet(c);
      if AllPlain(pages) { PlainUnit(refs, old(records), old(archive), pages, unit, |prior|); }
    }
  }

  lemma BelowCap(c: Setting, p: Progress, pages: seq<ArchivedPage>, calls: nat, trace: seq<Call>)
    requires Kept(c, p, pages, calls) && Talk(c, p, pages, trace) && !c.CapReached(p)
    ensures !CapMet(c, trace)
  {
    PageNumber(c, p, pages, calls);
    hide Kept, PagesOf, GoesOn, Conversation, StopsAs, InStep, EndRequest;
  }

  lemma AtCap(c: Setting, p: Progress, pages: seq<ArchivedPage>, calls: nat, trace: seq<Call>)
    requires Kept(c, p, pages, calls) && Talk(c, p, pages, trace) && c.CapReached(p)
    ensures CapMet(c, trace)
  {
    PageNumber(c, p, pages, calls);
    hide Kept, PagesOf, GoesOn, Conversation, StopsAs, InStep, EndRequest;
  }

  lemma OwnPagesOnly(c: Setting, p: Progress, pages: seq<ArchivedPage>, calls: nat)
    requires Kept(c, p, pages, calls) && p.query == c.row.query
    ensures forall i :: 0 <= i < |pages| ==> pages[i].query == c.row.query
  {
    hide Counted, Bounded, Stale, Explained;
  }

  lemma AllTold(c: Setting, p: Progress, pages: seq<ArchivedPage>, trace: seq<Call>, ledger: Ledger)
    requires Talk(c, p, pages, trace) && p.stop.Some? && p.pageNumber == |c.prior| + |pages|
    requires ledger == Ledger(
      p.query, p.pageNumber, p.requestCount, p.retryCount, p.stop.value, p.cursor, p.status, p.errors)
    ensures Told(c, trace, ledger) && pages == PagesOf(c, trace)
  {
    hide PagesOf, GoesOn, Conversation, StopsAs, InStep, EndRequest, CapMet;
  }

  lemma NoPagesYet(c: Setting)
    ensures c.After([]) == c.base && c.Unseen([]) == |c.ids - c.base.Keys|
  {
  }

  lemma KeptMeasure(c: Setting, p: Progress, pages: seq<ArchivedPage>, calls: nat)
    requires Kept(c, p, pages, calls)
    ensures Measure(c, p, pages) >= 0
  {
    MeasurePositive(c, p, pages);
  }

  lemma PageNumber(c: Setting, p: Progress, pages: seq<ArchivedPage>, calls: nat)
    requires Kept(c, p, pages, calls)
    ensures p.pageNumber == |c.prior| + |pages|
  {
    hide LivePages;
  }

  /** If the new pages show no odd id, the unit's records are the replay of its archived pages. */
  lemma PlainUnit(refs: RefNames, records: map<Text, Observation>, archive: seq<ArchivedPage>, pages: seq<ArchivedPage>,
      unit: Text, before: nat)
    requires AllPlain(pages) && PagesInOrder(unit, before, pages)
    ensures LivePages(refs, ReplayPages(refs, records, UnitPages(archive, unit)), pages) ==
      ReplayPages(refs, records, UnitPages(archive + pages, unit))
  {
    hide ReplayPages, LivePages, UnitPages;
    var prior := UnitPages(archive, unit);
    PlainPagesSame(refs, ReplayPages(refs, records, prior), pages);
    UnitPagesConcat(archive, pages, unit);
    OwnPages(pages, unit);
    ReplayPagesConcat(refs, records, prior, pages);
  }
}
