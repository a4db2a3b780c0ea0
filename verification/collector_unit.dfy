/** One unit of the crawl: the query matrix, the server, the variables of the unit loop and what every
    turn of the loop keeps. */
module CollectorUnit {
  import opened Contracts
  import opened Json
  import opened Collector

  // The query matrix ---------------------------------------------------------------------------

  datatype QueryRow = QueryRow(id: string, query: string, fallback: Option<string>)

  const QUERY_MATRIX: seq<QueryRow> := [
    QueryRow("Q01", "Higgsfield prompt", None),
    QueryRow("Q02", "\"Higgsfield AI\" prompt", Some("Higgsfield AI prompt")),
    QueryRow("Q03", "@higgsfield prompt", Some("higgsfield prompt")),
    QueryRow("Q04", "@higgsfield_ai prompt", Some("higgsfield_ai prompt")),
    QueryRow("Q05", "#Higgsfield prompt", Some("Higgsfield prompt")),
    QueryRow("Q06", "Higgsfield \"Prompt:\"", Some("Higgsfield Prompt")),
    QueryRow("Q07", "Higgsfield \"Image prompt:\"", Some("Higgsfield Image prompt")),
    QueryRow("Q08", "Higgsfield \"Video prompt:\"", Some("Higgsfield Video prompt")),
    QueryRow("Q09", "Higgsfield \"Negative Prompt:\"", Some("Higgsfield Negative Prompt")),
    QueryRow("Q10", "Higgsfield prompt has:media", Some("Higgsfield prompt filter:media"))]

  const MODES: seq<string> := ["Latest", "Top"]

  /** No row's fallback is its own query; otherwise falling back could go on for ever. */
  ghost predicate FallbackDiffers(row: QueryRow) {
    row.fallback.Some? ==> row.fallback.value != row.query
  }

  lemma {:induction false} MatrixFallbacksDiffer(r: nat)
    requires r < |QUERY_MATRIX|
    ensures FallbackDiffers(QUERY_MATRIX[r])
  {
    var row := QUERY_MATRIX[r];
    assert row.fallback.Some? ==> |row.query| != |row.fallback.value|;
  }

  // The server ---------------------------------------------------------------------------------

  datatype Request = Request(query: string, mode: string, cursor: Text)

  /** What request_with_retry gives: a page and how many retries it took, an HTTP error, or a network
      or parse error. */
  datatype Response = Answered(nodes: seq<Node>, next: Text, retries: nat) | Refused(status: int) | Broken

  /** The answer to a request, which may depend on how many came before it. */
  type Server = (Request, nat) -> Response

  datatype Stop =
    NaturalEnd | RepeatedCursor | NoNewIds | ConfiguredCap | RateLimited | PaymentOrPermission | ParseError

  datatype Status = StillRunning | Complete | Partial

  datatype Ledger = Ledger(
    query: string, pageCount: nat, requestCount: nat, retryCount: nat, stop: Stop, lastCursor: Text,
    status: Status, errors: nat)

  predicate ClosedStop(stop: Stop) { stop == NaturalEnd || stop == NoNewIds }

  predicate EndCursor(cursor: Text) { cursor == [] || cursor == [48] || cursor == [45, 49] }

  function StopOfStatus(status: int): Stop {
    if status == 429 then RateLimited
    else if status == 401 || status == 402 || status == 403 then PaymentOrPermission
    else ParseError
  }

  /** Pages the crawl adds: numbered on from the prior ones, none with a query's cursor twice. */
  ghost predicate PagesInOrder(unit: Text, before: nat, pages: seq<ArchivedPage>) {
    && (forall i :: 0 <= i < |pages| ==> pages[i].unit == unit && pages[i].number == before + i + 1)
    && (forall i, j :: 0 <= i < j < |pages| && pages[i].query == pages[j].query ==>
      pages[i].inputCursor != pages[j].inputCursor)
  }

  ghost predicate NumericWithin(nodes: seq<Node>, ids: set<Text>) {
    forall k :: 0 <= k < |nodes| && Numeric(nodes[k].id) ==> nodes[k].id in ids
  }

  /** The numeric ids the server ever shows are of this finite set. */
  ghost predicate Shows(server: Server, ids: set<Text>) {
    forall request, n :: server(request, n).Answered? ==> NumericWithin(server(request, n).nodes, ids)
  }

  lemma Shown(server: Server, ids: set<Text>, request: Request, n: nat)
    requires Shows(server, ids) && server(request, n).Answered?
    ensures NumericWithin(server(request, n).nodes, ids)
  {
  }

  lemma {:induction false} LiveKeysWithin(refs: RefNames, records: map<Text, Observation>, page: ArchivedPage, n: nat,
      ids: set<Text>)
    requires n <= |page.nodes| && NumericWithin(page.nodes, ids)
    ensures ObserveAll(records, LiveObservations(refs, page, n)).Keys <= records.Keys + ids
  {
    if n > 0 {
      LiveKeysWithin(refs, records, page, n - 1, ids);
      LiveStep(refs, records, page, n - 1);
      hide ObserveAll, LiveObservations, Merge, Numeric;
    }
  }

  lemma NoObservations(refs: RefNames, page: ArchivedPage)
    ensures LiveObservations(refs, page, 0) == []
  {
  }

  lemma NormalizedId(refs: RefNames, page: ArchivedPage, node: Node)
    ensures Normalize(refs, page, node).id == node.id
  {
  }

  lemma LiveStep(refs: RefNames, records: map<Text, Observation>, page: ArchivedPage, k: nat)
    requires k < |page.nodes|
    ensures var before := ObserveAll(records, LiveObservations(refs, page, k));
      ObserveAll(records, LiveObservations(refs, page, k + 1)) ==
        if Numeric(page.nodes[k].id) then Observe(before, Normalize(refs, page, page.nodes[k])) else before
  {
    hide Observe, Normalize, Numeric, ObserveAll;
    ObserveStep(records, LiveObservations(refs, page, k), Normalize(refs, page, page.nodes[k]));
    assert LiveObservations(refs, page, k) + [] == LiveObservations(refs, page, k);
  }

  lemma ObserveCases(records: map<Text, Observation>, o: Observation)
    ensures o.id !in records ==>
      Observe(records, o) == records[o.id := o] && |Observe(records, o).Keys| == |records.Keys| + 1
    ensures o.id in records ==>
      && Observe(records, o) == records[o.id := Merge(records[o.id], o)]
      && |Observe(records, o).Keys| == |records.Keys|
  {
    hide Merge;
    assert Observe(records, o).Keys == records.Keys + {o.id};
    assert o.id in records ==> records.Keys + {o.id} == records.Keys;
  }

  lemma SmallerSet(a: set<Text>, b: set<Text>)
    requires a <= b
    ensures |b - a| == |b| - |a| && (|a| == |b| ==> a == b)
  {
    assert b == a + (b - a) && a !! (b - a);
  }

  /** What is new in `b` is no longer to be seen. */
  lemma LessToSee(ids: set<Text>, a: set<Text>, b: set<Text>)
    requires a <= b <= a + ids
    ensures |ids - b| == |ids - a| - (|b| - |a|)
  {
    SmallerSet(a, b);
    assert ids - a == (ids - b) + (b - a) && (ids - b) !! (b - a);
  }

  // One unit's variables -----------------------------------------------------------------------

  /** The variables of the unit loop. */
  datatype Progress = Progress(
    query: string, cursor: Text, used: set<Text>, pageNumber: nat, requestCount: nat, retryCount: nat,
    noNew: nat, errors: nat, stop: Option<Stop>, status: Status)

  function Begin(row: QueryRow, prior: seq<ArchivedPage>): Progress {
    var cursor := if |prior| > 0 then prior[|prior| - 1].nextCursor else [];
    var used := set p | 0 <= p < |prior| :: prior[p].inputCursor;
    var start := Progress(row.query, cursor, used, |prior|, |prior|, 0, 0, 0, None, StillRunning);
    if |prior| > 0 && cursor == [] then start.(stop := Some(NaturalEnd), status := Complete) else start
  }

  function AfterCap(p: Progress): Progress {
    p.(stop := Some(ConfiguredCap), status := Partial)
  }

  function AfterFailure(p: Progress, stop: Stop): Progress {
    p.(errors := p.errors + 1, stop := Some(stop), status := Partial)
  }

  predicate FallsBack(row: QueryRow, p: Progress, status: int) {
    (status == 400 || status == 404) && row.fallback.Some? && p.query == row.query
  }

  function AfterFallback(row: QueryRow, p: Progress): Progress
    requires row.fallback.Some?
  {
    p.(query := row.fallback.value, cursor := [], used := {}, noNew := 0, errors := p.errors + 1)
  }

  function AfterPage(p: Progress, next: Text, retries: nat, pageNew: nat): Progress {
    var noNew := if pageNew == 0 then p.noNew + 1 else 0;
    var counted := p.(
      requestCount := p.requestCount + 1 + retries, retryCount := p.retryCount + retries,
      pageNumber := p.pageNumber + 1, noNew := noNew);
    if EndCursor(next) then counted.(stop := Some(NaturalEnd), status := Complete)
    else if next == p.cursor || next in p.used then counted.(stop := Some(RepeatedCursor), status := Partial)
    else if noNew >= 2 then counted.(stop := Some(NoNewIds), status := Complete)
    else counted.(used := p.used + {p.cursor}, cursor := next)
  }

  predicate NothingToAsk(prior: seq<ArchivedPage>, maxPages: nat) {
    (|prior| > 0 && prior[|prior| - 1].nextCursor == []) || (maxPages > 0 && |prior| >= maxPages)
  }

  /** What stays the same while a unit is crawled: the unit, the server and the clock, the unit's
      archived pages, the cap, the records after replaying those pages, and the ids the server may
      show, if they are known to be finite. */
  datatype Setting = Setting(
    row: QueryRow, mode: string, unit: Text, server: Server, clock: nat -> Text,
    prior: seq<ArchivedPage>, maxPages: nat,
    refs: RefNames, base: map<Text, Observation>, ids: set<Text>, finite: bool)
  {
    predicate CapReached(p: Progress) { maxPages != 0 && p.pageNumber >= maxPages }

    /** The records after these pages. */
    function After(pages: seq<ArchivedPage>): map<Text, Observation> { LivePages(refs, base, pages) }

    function Unseen(pages: seq<ArchivedPage>): nat { |ids - After(pages).Keys| }
  }

  /** The setting of a unit crawled with these archive and records before it. */
  ghost function UnitSetting(row: QueryRow, mode: string, unit: Text, server: Server, clock: nat -> Text, maxPages: nat,
      refs: RefNames, archive: seq<ArchivedPage>, records: map<Text, Observation>, ids: set<Text>): Setting
  {
    var prior := UnitPages(archive, unit);
    Setting(row, mode, unit, server, clock, prior, maxPages, refs, ReplayPages(refs, records, prior), ids,
            Shows(server, ids))
  }

  /** The counters, the status and the cap. */
  ghost predicate Counted(c: Setting, p: Progress, pages: seq<ArchivedPage>, calls: nat) {
    && p.pageNumber == |c.prior| + |pages| && p.requestCount == p.pageNumber + p.retryCount
    && (p.stop.Some? ==> p.status == if ClosedStop(p.stop.value) then Complete else Partial)
    && (c.maxPages > 0 && p.pageNumber > c.maxPages ==> pages == [])
    && (calls == 0 ==> pages == [])
    && (if calls > 0 || p.stop.Some? then calls > 0 <==> !NothingToAsk(c.prior, c.maxPages)
        else !(|c.prior| > 0 && c.prior[|c.prior| - 1].nextCursor == []))
  }

  /** Cursors: those of the current query's pages are used up, the next one is not. */
  ghost predicate Cursors(c: Setting, p: Progress, pages: seq<ArchivedPage>) {
    && PagesInOrder(c.unit, |c.prior|, pages)
    && (forall i :: 0 <= i < |pages| ==> pages[i].query == c.row.query || Some(pages[i].query) == c.row.fallback)
    && (p.query == c.row.query ==> forall i :: 0 <= i < |pages| ==> pages[i].query == c.row.query)
    && (p.query == c.row.query || Some(p.query) == c.row.fallback)
    && (p.stop.None? ==> forall i :: 0 <= i < |pages| && pages[i].query == p.query ==>
      pages[i].inputCursor in p.used && p.cursor !in p.used)
  }

  /** What is left before the loop must stop: tweets not yet seen, pages without a new one, the
      fallback. */
  function Left(row: QueryRow, p: Progress, unseen: nat): int {
    2 * unseen + (2 - p.noNew) + if p.query == row.query then 2 else 0
  }

  /** Each page uses some of what was left at the start, and so does falling back. */
  ghost predicate Bounded(c: Setting, p: Progress, pages: seq<ArchivedPage>) {
    c.finite ==>
      |pages| + Left(c.row, p, c.Unseen(pages)) + (if p.query == c.row.query then 0 else 1) <= 2 * c.Unseen([]) + 4
  }

  /** Counts down to the stop: by the cap if there is one, else by what the server can show. */
  function Measure(c: Setting, p: Progress, pages: seq<ArchivedPage>): int {
    if c.maxPages > 0 then
      2 * (if p.pageNumber < c.maxPages then c.maxPages - p.pageNumber else 0) + if p.query == c.row.query then 1 else 0
    else Left(c.row, p, c.Unseen(pages))
  }

  /** The last `noNew` pages added no tweet. */
  ghost predicate Stale(c: Setting, p: Progress, pages: seq<ArchivedPage>) {
    && p.noNew <= 2 && p.noNew <= |pages| && (p.stop.None? ==> p.noNew <= 1)
    && c.After(pages).Keys == c.After(pages[..|pages| - p.noNew]).Keys
  }

  /** The cursor was asked for by one of the pages. */
  ghost predicate Asked(pages: seq<ArchivedPage>, cursor: Text) {
    exists k :: 0 <= k < |pages| && pages[k].inputCursor == cursor
  }

  /** Why the unit stopped: what the last page said, two pages without a new tweet, the cap, or an
      error. */
  ghost predicate StopExplained(refs: RefNames, base: map<Text, Observation>, prior: seq<ArchivedPage>, maxPages: nat,
      stop: Stop, pages: seq<ArchivedPage>, errors: nat)
  {
    var all := prior + pages;
    match stop
    case NaturalEnd => |all| > 0 && EndCursor(all[|all| - 1].nextCursor)
    case RepeatedCursor =>
      && |pages| > 0 && !EndCursor(all[|all| - 1].nextCursor)
      && Asked(all, all[|all| - 1].nextCursor)
    case NoNewIds =>
      && |pages| > 1 && !EndCursor(all[|all| - 1].nextCursor)
      && LivePages(refs, base, pages).Keys == LivePages(refs, base, pages[..|pages| - 2]).Keys
    case ConfiguredCap => maxPages > 0 && |all| >= maxPages
    case _ => errors > 0
  }

  /** The stop is explained, an end cursor on a new page always stops the unit, and the used cursors
      were asked for. */
  ghost predicate Explained(c: Setting, p: Progress, pages: seq<ArchivedPage>) {
    && (p.stop.Some? ==> StopExplained(c.refs, c.base, c.prior, c.maxPages, p.stop.value, pages, p.errors))
    && (|pages| > 0 && EndCursor(pages[|pages| - 1].nextCursor) ==> p.stop == Some(NaturalEnd))
    && (forall used :: used in p.used ==> Asked(c.prior + pages, used))
  }

  lemma AskedMore(pages: seq<ArchivedPage>, page: ArchivedPage, cursor: Text)
    requires Asked(pages, cursor) || cursor == page.inputCursor
    ensures Asked(pages + [page], cursor)
  {
    if Asked(pages, cursor) {
      var k :| 0 <= k < |pages| && pages[k].inputCursor == cursor;
      assert (pages + [page])[k] == pages[k];
    } else {
      assert (pages + [page])[|pages|] == page;
    }
  }

  /** The loop's invariants together. */
  ghost predicate Kept(c: Setting, p: Progress, pages: seq<ArchivedPage>, calls: nat) {
    && Counted(c, p, pages, calls) && Cursors(c, p, pages)
    && Bounded(c, p, pages) && Stale(c, p, pages) && Explained(c, p, pages)
  }

  // A page taken -------------------------------------------------------------------------------

  /** `page` is the next page and shows `pageNew` new tweets. */
  ghost predicate NextPage(c: Setting, p: Progress, pages: seq<ArchivedPage>, page: ArchivedPage, pageNew: nat) {
    && p.stop.None? && !c.CapReached(p)
    && page.unit == c.unit && page.number == |c.prior| + |pages| + 1 && page.query == p.query &&
      page.inputCursor == p.cursor
    && c.After(pages).Keys <= c.After(pages + [page]).Keys
    && |c.After(pages + [page]).Keys| == |c.After(pages).Keys| + pageNew
    && (c.finite ==> c.After(pages + [page]).Keys <= c.After(pages).Keys + c.ids)
  }

  lemma PageCounts(c: Setting, p: Progress, pages: seq<ArchivedPage>, calls: nat, page: ArchivedPage, retries: nat,
      pageNew: nat)
    requires Counted(c, p, pages, calls) && NextPage(c, p, pages, page, pageNew)
    ensures Counted(c, AfterPage(p, page.nextCursor, retries, pageNew), pages + [page], calls + 1)
  {
  }

  lemma PageCursors(c: Setting, p: Progress, pages: seq<ArchivedPage>, page: ArchivedPage, retries: nat, pageNew: nat)
    requires Cursors(c, p, pages) && NextPage(c, p, pages, page, pageNew)
    ensures Cursors(c, AfterPage(p, page.nextCursor, retries, pageNew), pages + [page])
  {
    hide LivePages;
  }

  lemma PageUnseen(c: Setting, p: Progress, pages: seq<ArchivedPage>, page: ArchivedPage, pageNew: nat)
    requires c.finite && NextPage(c, p, pages, page, pageNew)
    ensures c.Unseen(pages + [page]) == c.Unseen(pages) - pageNew
  {
    hide LivePages;
    LessToSee(c.ids, c.After(pages).Keys, c.After(pages + [page]).Keys);
  }

  lemma PageBounded(c: Setting, p: Progress, pages: seq<ArchivedPage>, page: ArchivedPage, retries: nat, pageNew: nat)
    requires Bounded(c, p, pages) && Stale(c, p, pages) && NextPage(c, p, pages, page, pageNew)
    ensures Bounded(c, AfterPage(p, page.nextCursor, retries, pageNew), pages + [page])
    ensures c.maxPages > 0 || c.finite ==>
      Measure(c, AfterPage(p, page.nextCursor, retries, pageNew), pages + [page]) < Measure(c, p, pages)
  {
    hide LivePages, EndCursor;
    if c.finite { PageUnseen(c, p, pages, page, pageNew); }
    hide Setting.Unseen;
  }

  lemma NoNewAfter(p: Progress, next: Text, retries: nat, pageNew: nat)
    ensures var q := AfterPage(p, next, retries, pageNew);
      q.noNew == (if pageNew == 0 then p.noNew + 1 else 0) && (q.noNew >= 2 ==> q.stop.Some? || p.stop.Some?)
  {
    hide EndCursor;
  }

  lemma PageStale(c: Setting, p: Progress, pages: seq<ArchivedPage>, page: ArchivedPage, retries: nat, pageNew: nat)
    requires Stale(c, p, pages) && NextPage(c, p, pages, page, pageNew)
    ensures Stale(c, AfterPage(p, page.nextCursor, retries, pageNew), pages + [page])
  {
    hide Setting.After, AfterPage, Setting.Unseen, Setting.CapReached;
    var n, more := |pages| - p.noNew, pages + [page];
    NoNewAfter(p, page.nextCursor, retries, pageNew);
    SmallerSet(c.After(pages).Keys, c.After(more).Keys);
    if pageNew == 0 { assert more[..n] == pages[..n]; } else { assert more[..|more|] == more; }
  }

  lemma UsedAsked(c: Setting, p: Progress, pages: seq<ArchivedPage>, page: ArchivedPage)
    requires page.inputCursor == p.cursor && forall used :: used in p.used ==> Asked(c.prior + pages, used)
    ensures forall used :: used in p.used || used == p.cursor ==> Asked(c.prior + (pages + [page]), used)
  {
    hide Asked;
    assert c.prior + (pages + [page]) == c.prior + pages + [page];
    forall used | used in p.used || used == p.cursor ensures Asked(c.prior + (pages + [page]), used) {
      AskedMore(c.prior + pages, page, used);
    }
  }

  lemma PageStop(c: Setting, p: Progress, pages: seq<ArchivedPage>, page: ArchivedPage, retries: nat, pageNew: nat)
    requires p.stop.None? && p.noNew <= 1
    requires Asked(c.prior + (pages + [page]), p.cursor)
    requires page.nextCursor in p.used ==> Asked(c.prior + (pages + [page]), page.nextCursor)
    requires Stale(c, AfterPage(p, page.nextCursor, retries, pageNew), pages + [page])
    ensures var q := AfterPage(p, page.nextCursor, retries, pageNew);
      q.stop.Some? ==> StopExplained(c.refs, c.base, c.prior, c.maxPages, q.stop.value, pages + [page], q.errors)
  {
    hide Asked, EndCursor, LivePages;
    var all := c.prior + (pages + [page]);
    assert all[|all| - 1] == page;
  }

  lemma AfterPageFacts(p: Progress, next: Text, retries: nat, pageNew: nat)
    ensures var q := AfterPage(p, next, retries, pageNew);
      && (EndCursor(next) ==> q.stop == Some(NaturalEnd))
      && forall used :: used in q.used ==> used in p.used || used == p.cursor
  {
    hide EndCursor;
  }

  lemma PageExplained(c: Setting, p: Progress, pages: seq<ArchivedPage>, page: ArchivedPage, retries: nat, pageNew: nat)
    requires Explained(c, p, pages) && Stale(c, p, pages) && NextPage(c, p, pages, page, pageNew)
    ensures Explained(c, AfterPage(p, page.nextCursor, retries, pageNew), pages + [page])
  {
    hide AfterPage, Asked, EndCursor, LivePages, StopExplained;
    PageStale(c, p, pages, page, retries, pageNew);
    UsedAsked(c, p, pages, page);
    PageStop(c, p, pages, page, retries, pageNew);
    AfterPageFacts(p, page.nextCursor, retries, pageNew);
    hide NextPage, Stale;
  }

  lemma PageKeeps(c: Setting, p: Progress, pages: seq<ArchivedPage>, calls: nat, page: ArchivedPage, retries: nat,
      pageNew: nat)
    requires Kept(c, p, pages, calls) && NextPage(c, p, pages, page, pageNew)
    ensures var q := AfterPage(p, page.nextCursor, retries, pageNew);
      && Kept(c, q, pages + [page], calls + 1)
      && (c.maxPages > 0 || c.finite ==> Measure(c, q, pages + [page]) < Measure(c, p, pages))
  {
    hide Counted, Cursors, Bounded, Stale, Explained, NextPage, Measure;
    PageCounts(c, p, pages, calls, page, retries, pageNew);
    PageCursors(c, p, pages, page, retries, pageNew);
    PageBounded(c, p, pages, page, retries, pageNew);
    PageStale(c, p, pages, page, retries, pageNew);
    PageExplained(c, p, pages, page, retries, pageNew);
  }

  // Every other turn ---------------------------------------------------------------------------

  lemma FallbackKeeps(c: Setting, p: Progress, pages: seq<ArchivedPage>, calls: nat)
    requires FallbackDiffers(c.row) && c.row.fallback.Some? && p.query == c.row.query && p.stop.None?
    requires !c.CapReached(p)
    requires Kept(c, p, pages, calls)
    ensures var q := AfterFallback(c.row, p);
      Kept(c, q, pages, calls + 1) && Measure(c, q, pages) < Measure(c, p, pages)
  {
    hide LivePages;
    assert pages[..|pages|] == pages;
  }

  lemma FailureKeeps(c: Setting, p: Progress, pages: seq<ArchivedPage>, calls: nat, stop: Stop)
    requires p.stop.None? && !c.CapReached(p)
    requires stop == RateLimited || stop == PaymentOrPermission || stop == ParseError
    requires Kept(c, p, pages, calls)
    ensures Kept(c, AfterFailure(p, stop), pages, calls + 1)
  {
    hide LivePages;
  }

  lemma CapKeeps(c: Setting, p: Progress, pages: seq<ArchivedPage>, calls: nat)
    requires p.stop.None? && c.CapReached(p) && Kept(c, p, pages, calls)
    ensures Kept(c, AfterCap(p), pages, calls)
  {
    hide LivePages;
  }

  lemma BeginKeeps(c: Setting)
    ensures Kept(c, Begin(c.row, c.prior), [], 0)
  {
    hide LivePages;
    assert c.prior + [] == c.prior;
    var none: seq<ArchivedPage> := [];
    assert none[..0] == none;
  }

  lemma MeasurePositive(c: Setting, p: Progress, pages: seq<ArchivedPage>)
    requires Stale(c, p, pages)
    ensures Measure(c, p, pages) >= 0
  {
  }

  lemma Finished(c: Setting, p: Progress, pages: seq<ArchivedPage>, calls: nat)
    requires p.stop.Some? && Kept(c, p, pages, calls)
    ensures p.pageNumber == |c.prior| + |pages| && p.requestCount == p.pageNumber + p.retryCount
    ensures c.finite ==> |pages| <= 2 * c.Unseen([]) + 3
    ensures p.status == if ClosedStop(p.stop.value) then Complete else Partial
    ensures c.maxPages > 0 && p.pageNumber > c.maxPages ==> pages == []
    ensures calls == 0 <==> NothingToAsk(c.prior, c.maxPages)
    ensures StopExplained(c.refs, c.base, c.prior, c.maxPages, p.stop.value, pages, p.errors)
    ensures |pages| > 0 && EndCursor(pages[|pages| - 1].nextCursor) ==> p.stop.value == NaturalEnd
    ensures PagesInOrder(c.unit, |c.prior|, pages)
  {
    hide LivePages;
  }
}
