/** What a unit says to the server and hears from it, call by call, and why it stops: stated on the
    calls alone. */
module CollectorTalk {
  import opened Contracts
  import opened Json
  import opened Collector
  import opened CollectorUnit

  datatype Call = Call(request: Request, response: Response)

  function LastCursor(prior: seq<ArchivedPage>): Text {
    if |prior| == 0 then [] else prior[|prior| - 1].nextCursor
  }

  /** The request that follows these calls: first the row's query at the cursor the archive ends with,
      after an answer the same query at the cursor answered, after a rejection the fallback from the
      beginning. */
  function NextRequest(c: Setting, trace: seq<Call>): Request {
    if |trace| == 0 then Request(c.row.query, c.mode, LastCursor(c.prior))
    else
      var last := trace[|trace| - 1];
      match last.response
      case Answered(_, next, _) => Request(last.request.query, c.mode, next)
      case _ => Request(c.row.fallback.GetOr(c.row.query), c.mode, [])
  }

  /** Each call makes the request that is due and gets the server's answer to it. */
  ghost predicate Conversation(c: Setting, trace: seq<Call>) {
    forall k :: 0 <= k < |trace| ==>
      trace[k].request == NextRequest(c, trace[..k]) && trace[k].response == c.server(trace[k].request, k)
  }

  /** The pages answered, as they are archived. */
  function PagesOf(c: Setting, trace: seq<Call>): seq<ArchivedPage> {
    if |trace| == 0 then []
    else
      var n := |trace| - 1;
      var before := PagesOf(c, trace[..n]);
      match trace[n].response
      case Answered(nodes, next, _) =>
        var request := trace[n].request;
        before + [ArchivedPage(
          c.unit, request.query, |c.prior| + |before| + 1, request.cursor, next, c.clock(n), nodes)]
      case _ => before
  }

  function Retries(trace: seq<Call>): nat {
    if |trace| == 0 then 0
    else
      var n := |trace| - 1;
      Retries(trace[..n]) + match trace[n].response case Answered(_, _, retries) => retries case _ => 0
  }

  // When it goes on and why it stops -----------------------------------------------------------

  /** The query has asked for the cursor, here or, if it is the row's own, in the archive. */
  ghost predicate AskedBy(c: Setting, pages: seq<ArchivedPage>, query: string, cursor: Text) {
    || (exists k :: 0 <= k < |pages| && pages[k].query == query && pages[k].inputCursor == cursor)
    || (query == c.row.query && Asked(c.prior, cursor))
  }

  /** The last page leads to a cursor its query has asked for. */
  ghost predicate Repeated(c: Setting, pages: seq<ArchivedPage>)
    requires |pages| > 0
  {
    AskedBy(c, pages, pages[|pages| - 1].query, pages[|pages| - 1].nextCursor)
  }

  /** The last page added no tweet. */
  ghost predicate AddedNone(c: Setting, pages: seq<ArchivedPage>)
    requires |pages| > 0
  {
    c.After(pages).Keys == c.After(pages[..|pages| - 1]).Keys
  }

  /** The last two pages are of one query and neither added a tweet. */
  ghost predicate Barren(c: Setting, pages: seq<ArchivedPage>)
    requires |pages| > 0
  {
    && |pages| > 1 && pages[|pages| - 2].query == pages[|pages| - 1].query
    && AddedNone(c, pages) && AddedNone(c, pages[..|pages| - 1])
  }

  /** The server rejects the row's own query and there is a fallback. */
  ghost predicate OwnQueryRejected(c: Setting, call: Call) {
    && (call.response == Refused(400) || call.response == Refused(404))
    && c.row.fallback.Some? && call.request.query == c.row.query
  }

  /** The cursor of a last page. */
  predicate Closing(next: Text) { next == [] || next == Ascii("0") || next == Ascii("-1") }

  lemma ClosingIsEnd(next: Text)
    ensures Closing(next) <==> EndCursor(next)
  {
    assert Ascii("0") == [48] && Ascii("-1") == [45, 49];
  }

  /** Nothing said so far ends the unit. */
  ghost predicate GoesOn(c: Setting, trace: seq<Call>) {
    if |trace| == 0 then |c.prior| == 0 || LastCursor(c.prior) != []
    else
      var last := trace[|trace| - 1];
      match last.response
      case Answered(_, next, _) =>
        var pages := PagesOf(c, trace);
        !Closing(next) && |pages| > 0 && !Repeated(c, pages) && !Barren(c, pages)
      case _ => OwnQueryRejected(c, last)
  }

  ghost predicate CapMet(c: Setting, trace: seq<Call>) {
    c.maxPages > 0 && |c.prior| + |PagesOf(c, trace)| >= c.maxPages
  }

  /** The stop that ends the unit after these calls. */
  ghost predicate StopsAs(c: Setting, trace: seq<Call>, stop: Stop) {
    if GoesOn(c, trace) then stop == ConfiguredCap && CapMet(c, trace)
    else if |trace| == 0 then stop == NaturalEnd
    else
      match trace[|trace| - 1].response
      case Answered(_, next, _) =>
        var pages := PagesOf(c, trace);
        && (stop == NaturalEnd <==> Closing(next))
        && (stop == RepeatedCursor <==> !Closing(next) && |pages| > 0 && Repeated(c, pages))
        && (stop == NoNewIds <==> !Closing(next) && |pages| > 0 && !Repeated(c, pages))
      case Refused(status) =>
        && (stop == RateLimited <==> status == 429)
        && (stop == PaymentOrPermission <==> status == 401 || status == 402 || status == 403)
        && (stop == ParseError <==> status != 429 && status != 401 && status != 402 && status != 403)
      case Broken => stop == ParseError
  }

  /** The query and the cursor a unit ends with: those of its last request, or the ones due if the cap
      ended it. */
  function EndRequest(c: Setting, trace: seq<Call>, stop: Stop): Request {
    if stop == ConfiguredCap || |trace| == 0 then NextRequest(c, trace) else trace[|trace| - 1].request
  }

  /** The calls of a unit and its ledger: every call was due, none was made after the end or over the
      cap, and the ledger says why there was no further one. */
  ghost predicate Told(c: Setting, trace: seq<Call>, ledger: Ledger) {
    && Conversation(c, trace)
    && (forall k :: 0 <= k < |trace| ==> GoesOn(c, trace[..k]) && !CapMet(c, trace[..k]))
    && StopsAs(c, trace, ledger.stop)
    && ledger.pageCount == |c.prior| + |PagesOf(c, trace)|
    && ledger.retryCount == Retries(trace) && ledger.errors == |trace| - |PagesOf(c, trace)|
    && ledger.query == EndRequest(c, trace, ledger.stop).query
    && ledger.lastCursor == EndRequest(c, trace, ledger.stop).cursor
  }

  // The loop's variables follow the calls ------------------------------------------------------

  /** While the unit goes on, the variables are those the calls so far make them. */
  ghost predicate InStep(c: Setting, p: Progress, pages: seq<ArchivedPage>, trace: seq<Call>) {
    && GoesOn(c, trace) && Request(p.query, c.mode, p.cursor) == NextRequest(c, trace)
    && (forall cursor :: cursor in p.used <==> AskedBy(c, pages, p.query, cursor))
    && p.noNew <= 1
    && (p.noNew == 1 <==> |pages| > 0 && pages[|pages| - 1].query == p.query && AddedNone(c, pages))
  }

  ghost predicate Talk(c: Setting, p: Progress, pages: seq<ArchivedPage>, trace: seq<Call>) {
    && Conversation(c, trace) && pages == PagesOf(c, trace)
    && (forall k :: 0 <= k < |trace| ==> GoesOn(c, trace[..k]) && !CapMet(c, trace[..k]))
    && p.retryCount == Retries(trace) && p.errors == |trace| - |pages|
    && match p.stop
      case None => InStep(c, p, pages, trace)
      case Some(stop) =>
        && StopsAs(c, trace, stop)
        && Request(p.query, c.mode, p.cursor) == EndRequest(c, trace, stop)
  }

  lemma TraceStep(c: Setting, trace: seq<Call>, call: Call)
    ensures (trace + [call])[..|trace|] == trace
    ensures Retries(trace + [call]) ==
      Retries(trace) + match call.response case Answered(_, _, retries) => retries case _ => 0
    ensures PagesOf(c, trace + [call]) ==
      match call.response
      case Answered(nodes, next, _) =>
        PagesOf(c, trace) + [ArchivedPage(c.unit, call.request.query, |c.prior| + |PagesOf(c, trace)| + 1,
          call.request.cursor, next, c.clock(|trace|), nodes)]
      case _ => PagesOf(c, trace)
  {
    assert (trace + [call])[..|trace|] == trace;
  }

  /** A call made while the unit goes on belongs to the conversation. */
  lemma CallMade(c: Setting, p: Progress, pages: seq<ArchivedPage>, trace: seq<Call>)
    requires Talk(c, p, pages, trace) && p.stop.None? && !CapMet(c, trace)
    ensures var request := Request(p.query, c.mode, p.cursor);
      var more := trace + [Call(request, c.server(request, |trace|))];
      && Conversation(c, more)
      && forall k :: 0 <= k < |more| ==> GoesOn(c, more[..k]) && !CapMet(c, more[..k])
  {
    hide GoesOn, CapMet, NextRequest;
    var request := Request(p.query, c.mode, p.cursor);
    var more := trace + [Call(request, c.server(request, |trace|))];
    forall k | 0 <= k < |more|
      ensures more[k].request == NextRequest(c, more[..k]) && more[k].response == c.server(more[k].request, k)
      ensures GoesOn(c, more[..k]) && !CapMet(c, more[..k])
    {
      if k < |trace| { assert more[..k] == trace[..k]; } else { assert more[..k] == trace; }
    }
  }

  lemma BeginTalks(c: Setting)
    ensures Talk(c, Begin(c.row, c.prior), [], [])
  {
    var p := Begin(c.row, c.prior);
    forall cursor ensures cursor in p.used <==> AskedBy(c, [], p.query, cursor) {
      assert Asked(c.prior, cursor) <==> cursor in p.used;
    }
  }

  lemma CapTalks(c: Setting, p: Progress, pages: seq<ArchivedPage>, trace: seq<Call>)
    requires Talk(c, p, pages, trace) && p.stop.None? && CapMet(c, trace)
    ensures Talk(c, AfterCap(p), pages, trace)
  {
  }

  lemma FailureStops(c: Setting, trace: seq<Call>, call: Call, stop: Stop)
    requires !call.response.Answered? && !OwnQueryRejected(c, call)
    requires stop == if call.response.Refused? then StopOfStatus(call.response.status) else ParseError
    ensures StopsAs(c, trace + [call], stop) && EndRequest(c, trace + [call], stop) == call.request
  {
    hide PagesOf, OwnQueryRejected;
  }

  /** A failed call ends the unit, with the stop that fits the answer. */
  lemma FailureTalks(c: Setting, p: Progress, pages: seq<ArchivedPage>, trace: seq<Call>, stop: Stop)
    requires Talk(c, p, pages, trace) && p.stop.None? && !CapMet(c, trace)
    requires var response := c.server(Request(p.query, c.mode, p.cursor), |trace|);
      match response
      case Answered(_, _, _) => false
      case Refused(status) => !FallsBack(c.row, p, status) && stop == StopOfStatus(status)
      case Broken => stop == ParseError
    ensures var request := Request(p.query, c.mode, p.cursor);
      Talk(c, AfterFailure(p, stop), pages, trace + [Call(request, c.server(request, |trace|))])
  {
    var request := Request(p.query, c.mode, p.cursor);
    var call := Call(request, c.server(request, |trace|));
    CallMade(c, p, pages, trace);
    TraceStep(c, trace, call);
    assert !OwnQueryRejected(c, call);
    FailureStops(c, trace, call, stop);
    hide Conversation, CapMet, InStep, GoesOn, StopsAs, EndRequest, PagesOf, Retries, OwnQueryRejected, StopOfStatus;
  }

  lemma FallbackTalks(c: Setting, p: Progress, pages: seq<ArchivedPage>, trace: seq<Call>, status: int)
    requires Talk(c, p, pages, trace) && p.stop.None? && !CapMet(c, trace)
    requires FallbackDiffers(c.row) && FallsBack(c.row, p, status)
    requires c.server(Request(p.query, c.mode, p.cursor), |trace|) == Refused(status)
    requires forall i :: 0 <= i < |pages| ==> pages[i].query == c.row.query
    ensures Talk(c, AfterFallback(c.row, p), pages, trace + [Call(Request(p.query, c.mode, p.cursor), Refused(status))])
  {
    var call := Call(Request(p.query, c.mode, p.cursor), Refused(status));
    CallMade(c, p, pages, trace);
    TraceStep(c, trace, call);
    hide Conversation, CapMet, AddedNone, PagesOf, Retries, StopsAs, EndRequest, Repeated, Barren, LivePages;
    assert OwnQueryRejected(c, call);
    var q := AfterFallback(c.row, p);
    forall cursor ensures !AskedBy(c, pages, q.query, cursor) { }
  }

  /** After a page the query has asked for the page's cursor too. */
  lemma AskedByPage(c: Setting, pages: seq<ArchivedPage>, page: ArchivedPage, cursor: Text)
    ensures AskedBy(c, pages + [page], page.query, cursor) <==>
      AskedBy(c, pages, page.query, cursor) || cursor == page.inputCursor
  {
    var more := pages + [page];
    if k :| 0 <= k < |pages| && pages[k].query == page.query && pages[k].inputCursor == cursor {
      assert more[k] == pages[k];
    }
    if cursor == page.inputCursor { assert more[|pages|] == page; }
  }

  lemma AddedNoneWhen(c: Setting, p: Progress, pages: seq<ArchivedPage>, page: ArchivedPage, pageNew: nat)
    requires NextPage(c, p, pages, page, pageNew)
    ensures AddedNone(c, pages + [page]) <==> pageNew == 0
  {
    hide LivePages;
    assert (pages + [page])[..|pages|] == pages;
    SmallerSet(c.After(pages).Keys, c.After(pages + [page]).Keys);
  }

  /** A page repeats a cursor, or is barren, exactly when the loop's variables say so. */
  lemma PageSays(c: Setting, p: Progress, pages: seq<ArchivedPage>, trace: seq<Call>, page: ArchivedPage, pageNew: nat)
    requires InStep(c, p, pages, trace) && NextPage(c, p, pages, page, pageNew)
    ensures Repeated(c, pages + [page]) <==> page.nextCursor == p.cursor || page.nextCursor in p.used
    ensures Barren(c, pages + [page]) <==> p.noNew == 1 && pageNew == 0
    ensures AddedNone(c, pages + [page]) <==> pageNew == 0
    ensures forall cursor :: AskedBy(c, pages + [page], page.query, cursor) <==> cursor in p.used + {p.cursor}
  {
    hide AskedBy, AddedNone, GoesOn, NextRequest, LivePages;
    AddedNoneWhen(c, p, pages, page, pageNew);
    assert (pages + [page])[..|pages|] == pages;
    forall cursor ensures AskedBy(c, pages + [page], page.query, cursor) <==> cursor in p.used + {p.cursor} {
      AskedByPage(c, pages, page, cursor);
    }
  }

  /** What the loop makes of a page is what the call says. */
  lemma PageVerdict(c: Setting, p: Progress, pages: seq<ArchivedPage>, page: ArchivedPage, retries: nat, pageNew: nat,
      more: seq<Call>)
    requires page.query == p.query && p.stop.None? && p.noNew <= 1
    requires Repeated(c, pages + [page]) <==> page.nextCursor == p.cursor || page.nextCursor in p.used
    requires Barren(c, pages + [page]) <==> p.noNew == 1 && pageNew == 0
    requires AddedNone(c, pages + [page]) <==> pageNew == 0
    requires forall cursor :: AskedBy(c, pages + [page], page.query, cursor) <==> cursor in p.used + {p.cursor}
    requires |more| > 0 && PagesOf(c, more) == pages + [page]
    requires more[|more| - 1] ==
      Call(Request(p.query, c.mode, p.cursor), Answered(page.nodes, page.nextCursor, retries))
    ensures var q := AfterPage(p, page.nextCursor, retries, pageNew);
      match q.stop
      case None => InStep(c, q, pages + [page], more)
      case Some(stop) =>
        StopsAs(c, more, stop) && Request(q.query, c.mode, q.cursor) == EndRequest(c, more, stop)
  {
    hide AddedNone, AskedBy, Repeated, Barren, PagesOf, EndCursor, Closing, LivePages;
    ClosingIsEnd(page.nextCursor);
  }

  lemma PageTalks(c: Setting, p: Progress, pages: seq<ArchivedPage>, trace: seq<Call>, page: ArchivedPage, retries: nat,
      pageNew: nat)
    requires Talk(c, p, pages, trace) && p.stop.None? && !CapMet(c, trace) && NextPage(c, p, pages, page, pageNew)
    requires c.server(Request(p.query, c.mode, p.cursor), |trace|) == Answered(page.nodes, page.nextCursor, retries)
    requires page.fetchedAt == c.clock(|trace|)
    ensures Talk(c, AfterPage(p, page.nextCursor, retries, pageNew), pages + [page],
      trace + [Call(Request(p.query, c.mode, p.cursor), Answered(page.nodes, page.nextCursor, retries))])
  {
    hide Conversation, CapMet, PagesOf, Retries, LivePages, GoesOn, EndRequest, StopsAs, AskedBy, Repeated, Barren,
      AddedNone, InStep, NextPage, AfterPage;
    var call := Call(Request(p.query, c.mode, p.cursor), Answered(page.nodes, page.nextCursor, retries));
    CallMade(c, p, pages, trace);
    TraceStep(c, trace, call);
    PageIsNext(c, p, pages, page, pageNew);
    assert PagesOf(c, trace + [call]) == pages + [page];
    PageSays(c, p, pages, trace, page, pageNew);
    FewBarren(c, p, pages, trace);
    PageVerdict(c, p, pages, page, retries, pageNew, trace + [call]);
    PageCounters(p, page.nextCursor, retries, pageNew);
  }

  lemma FewBarren(c: Setting, p: Progress, pages: seq<ArchivedPage>, trace: seq<Call>)
    requires InStep(c, p, pages, trace)
    ensures p.noNew <= 1
  {
    hide GoesOn, AddedNone, AskedBy;
  }

  lemma PageIsNext(c: Setting, p: Progress, pages: seq<ArchivedPage>, page: ArchivedPage, pageNew: nat)
    requires NextPage(c, p, pages, page, pageNew)
    ensures page.unit == c.unit && page.number == |c.prior| + |pages| + 1
    ensures page.query == p.query && page.inputCursor == p.cursor
  {
  }

  lemma PageCounters(p: Progress, next: Text, retries: nat, pageNew: nat)
    ensures var q := AfterPage(p, next, retries, pageNew);
      q.retryCount == p.retryCount + retries && q.errors == p.errors
  {
  }

  // What the calls mean for the pages ----------------------------------------------------------

  /** Page `i` is what the server answered to call `at` for the page's query and cursor. */
  ghost predicate AnswerTo(c: Setting, page: ArchivedPage, at: nat) {
    var response := c.server(Request(page.query, c.mode, page.inputCursor), at);
    && response.Answered? && response.nodes == page.nodes && response.next == page.nextCursor
    && page.fetchedAt == c.clock(at)
  }

  /** The pages added are the server's answers to calls made one after the other, each for the page's
      own query and cursor. */
  lemma {:induction false} PagesAreAnswers(c: Setting, trace: seq<Call>) returns (at: seq<nat>)
    requires Conversation(c, trace)
    ensures var pages := PagesOf(c, trace);
      && |at| == |pages| && (forall i, j :: 0 <= i < j < |at| ==> at[i] < at[j])
      && forall i :: 0 <= i < |at| ==> at[i] < |trace| && AnswerTo(c, pages[i], at[i])
  {
    if |trace| == 0 {
      at := [];
    } else {
      var n := |trace| - 1;
      ConversationPrefix(c, trace, n);
      hide NextRequest, Conversation, AnswerTo;
      at := PagesAreAnswers(c, trace[..n]);
      if trace[n].response.Answered? {
        at := at + [n];
        LastAnswer(c, trace);
      }
    }
  }

  lemma LastAnswer(c: Setting, trace: seq<Call>)
    requires Conversation(c, trace) && |trace| > 0 && trace[|trace| - 1].response.Answered?
    ensures |PagesOf(c, trace)| > 0 && AnswerTo(c, PagesOf(c, trace)[|PagesOf(c, trace)| - 1], |trace| - 1)
  {
    var n := |trace| - 1;
    assert trace[n].request == NextRequest(c, trace[..n]);
  }

  lemma ConversationPrefix(c: Setting, trace: seq<Call>, n: nat)
    requires Conversation(c, trace) && n <= |trace|
    ensures Conversation(c, trace[..n])
  {
    hide NextRequest;
    forall k | 0 <= k < n
      ensures trace[..n][k].request == NextRequest(c, trace[..n][..k])
      ensures trace[..n][k].response == c.server(trace[..n][k].request, k)
    {
      assert trace[..n][..k] == trace[..k];
    }
  }

  /** Where the request for a page of this query goes on. */
  function ChainCursor(c: Setting, pages: seq<ArchivedPage>, query: string): Text {
    if |pages| > 0 && pages[|pages| - 1].query == query then pages[|pages| - 1].nextCursor
    else if |pages| == 0 && query == c.row.query then LastCursor(c.prior)
    else []
  }

  /** Each page was asked for at the cursor the page before it answered, if that is of the same query;
      the first one of the row's query at the cursor the archive ends with; and the first one of the
      fallback at none. */
  ghost predicate Chained(c: Setting, pages: seq<ArchivedPage>) {
    forall i :: 0 <= i < |pages| ==> pages[i].inputCursor == ChainCursor(c, pages[..i], pages[i].query)
  }

  lemma ChainMore(c: Setting, pages: seq<ArchivedPage>, page: ArchivedPage)
    requires Chained(c, pages) && page.inputCursor == ChainCursor(c, pages, page.query)
    ensures Chained(c, pages + [page])
  {
    hide ChainCursor;
    var more := pages + [page];
    forall i | 0 <= i < |more| ensures more[i].inputCursor == ChainCursor(c, more[..i], more[i].query) {
      if i < |pages| { assert more[..i] == pages[..i]; } else { assert more[..i] == pages; }
    }
  }

  ghost predicate Open(c: Setting, trace: seq<Call>) {
    forall k :: 0 <= k < |trace| ==> GoesOn(c, trace[..k])
  }

  lemma OpenPrefix(c: Setting, trace: seq<Call>, n: nat)
    requires Open(c, trace) && n < |trace|
    ensures Open(c, trace[..n]) && GoesOn(c, trace[..n])
  {
    hide GoesOn;
    forall k | 0 <= k < n ensures GoesOn(c, trace[..n][..k]) { assert trace[..n][..k] == trace[..k]; }
  }

  /** The request that is due continues the chain; and as long as the row's own query is asked, all
      pages are its. */
  ghost predicate DueInChain(c: Setting, pages: seq<ArchivedPage>, due: Request) {
    && (due.query == c.row.query ==> forall i :: 0 <= i < |pages| ==> pages[i].query == c.row.query)
    && due.cursor == ChainCursor(c, pages, due.query)
  }

  lemma DueAfter(c: Setting, trace: seq<Call>, call: Call)
    requires FallbackDiffers(c.row) && DueInChain(c, PagesOf(c, trace), call.request)
    requires call.response.Answered? || OwnQueryRejected(c, call)
    ensures DueInChain(c, PagesOf(c, trace + [call]), NextRequest(c, trace + [call]))
  {
    TraceStep(c, trace, call);
    hide PagesOf;
  }

  lemma LastGoesOn(c: Setting, trace: seq<Call>)
    requires |trace| > 0 && GoesOn(c, trace)
    ensures trace[|trace| - 1].response.Answered? || OwnQueryRejected(c, trace[|trace| - 1])
  {
    hide PagesOf;
  }

  lemma LastCall(c: Setting, trace: seq<Call>) returns (before: seq<Call>, call: Call)
    requires Conversation(c, trace) && Open(c, trace) && |trace| > 0
    ensures |before| == |trace| - 1 && before == trace[..|before|] && trace == before + [call]
    ensures call == trace[|before|] && call.request == NextRequest(c, before)
    ensures Conversation(c, before) && Open(c, before) && GoesOn(c, before)
  {
    hide NextRequest, GoesOn;
    before, call := trace[..|trace| - 1], trace[|trace| - 1];
    ConversationPrefix(c, trace, |trace| - 1);
    OpenPrefix(c, trace, |trace| - 1);
  }

  lemma {:induction false} OwnQueryFirst(c: Setting, trace: seq<Call>)
    requires FallbackDiffers(c.row) && Conversation(c, trace) && Open(c, trace) && GoesOn(c, trace)
    ensures DueInChain(c, PagesOf(c, trace), NextRequest(c, trace))
    decreases |trace|
  {
    if |trace| > 0 {
      hide *;
      var before, call := LastCall(c, trace);
      LastGoesOn(c, trace);
      OwnQueryFirst(c, before);
      DueAfter(c, before, call);
    }
  }

  lemma NothingChained(c: Setting)
    ensures Chained(c, PagesOf(c, []))
  {
  }

  lemma {:induction false} PagesChained(c: Setting, trace: seq<Call>)
    requires FallbackDiffers(c.row) && Conversation(c, trace) && Open(c, trace)
    ensures Chained(c, PagesOf(c, trace))
    decreases |trace|
  {
    hide *;
    if |trace| == 0 {
      NothingChained(c);
    } else {
      var before, call := LastCall(c, trace);
      PagesChained(c, before);
      OwnQueryFirst(c, before);
      ChainCall(c, before, call);
    }
  }

  lemma ChainCall(c: Setting, trace: seq<Call>, call: Call)
    requires Chained(c, PagesOf(c, trace)) && DueInChain(c, PagesOf(c, trace), call.request)
    ensures Chained(c, PagesOf(c, trace + [call]))
  {
    TraceStep(c, trace, call);
    hide PagesOf, Chained, ChainCursor;
    var before, pages := PagesOf(c, trace), PagesOf(c, trace + [call]);
    if call.response.Answered? { ChainMore(c, before, pages[|before|]); }
  }

  /** The pages are the server's answers, page `i` to call `at[i]`, in the order of the calls. */
  ghost predicate AnswersAt(c: Setting, pages: seq<ArchivedPage>, at: seq<nat>, calls: nat) {
    && |at| == |pages| && (forall i, j :: 0 <= i < j < |at| ==> at[i] < at[j])
    && forall i :: 0 <= i < |at| ==> at[i] < calls && AnswerTo(c, pages[i], at[i])
  }

  /** Each page is the server's answer to a later call than the page before it, for the cursor that page
      answered if it is of the same query. */
  ghost predicate FromServer(c: Setting, pages: seq<ArchivedPage>, calls: nat) {
    Chained(c, pages) && exists at :: AnswersAt(c, pages, at, calls)
  }

  lemma ToldByServer(c: Setting, trace: seq<Call>, ledger: Ledger)
    requires FallbackDiffers(c.row) && Told(c, trace, ledger)
    ensures FromServer(c, PagesOf(c, trace), |trace|)
  {
    hide GoesOn, CapMet, StopsAs, PagesOf, Retries, EndRequest, Chained, AnswerTo, NextRequest;
    PagesChained(c, trace);
    var at := PagesAreAnswers(c, trace);
    assert AnswersAt(c, PagesOf(c, trace), at, |trace|);
  }
}
