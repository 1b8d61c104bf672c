/**
 * One scraping run for a year: WebScraper.makeRequest for every enumerated
 * date, the merge of the per-date maps in WebScraper.runScraper, the read of
 * the persisted snapshot, and the final condenseEvents.
 */
module Scraper {
  import opened Wrappers
  import opened JsText
  import opened Listings
  import opened DateRange
  import opened Dedup

  /** What the transport did with one request: it rejected (threw), or answered with a status and a parsed page. */
  datatype Response = Rejected | Answered(status: int, page: Document)

  /** The network, as a function from the date token in the request URL to the response. */
  type Fetch = JsString -> Response

  /** What reading /Scraped-Events did: it threw, or gave a snapshot. */
  datatype ReadOutcome = ReadFailed | ReadValue(snapshot: Snapshot)

  /**
   * makeRequest: None where the async function resolves to undefined (the
   * request or the extraction threw), the extracted events on status 200,
   * and an empty map on any other status.
   */
  function MakeRequest(fetch: Fetch, date: DateVar): (r: Option<EventSet>)
    ensures var resp := fetch(DateToken(date.year, date.month, date.day));
      && (r == None <==> resp.Rejected? || (resp.status == 200 && Extraction(resp.page).Err?))
      && (r.Some? && r.value != map[] ==> resp.Answered? && resp.status == 200 && Extraction(resp.page) == Ok(r.value))
      && (resp.Answered? && resp.status == 200 && Extraction(resp.page).Ok? ==> r == Some(Extraction(resp.page).value))
      && (resp.Answered? && resp.status != 200 ==> r == Some(map[]))
  {
    match fetch(DateToken(date.year, date.month, date.day))
    case Rejected => None
    case Answered(status, page) =>
      if status == 200 then
        match Extraction(page)
        case Err(_) => None
        case Ok(listings) => Some(listings)
      else Some(map[])
  }

  /** The outcome of every request of a year, in enumeration order (Promise.all keeps that order). */
  function Outcomes(fetch: Fetch, year: nat): (gs: seq<Option<EventSet>>)
    ensures |gs| == DateCount
  {
    seq(DateCount, k requires 0 <= k < DateCount => MakeRequest(fetch, DateAt(year, k)))
  }

  /** The groups before the first undefined one: the ones the merge gets through before Object.keys throws. */
  function Completed(gs: seq<Option<EventSet>>): (done: seq<EventSet>)
    ensures |done| <= |gs|
    ensures forall i :: 0 <= i < |done| ==> gs[i] == Some(done[i])
    ensures |done| < |gs| ==> gs[|done|] == None
  {
    if gs == [] then []
    else match gs[0]
      case None => []
      case Some(g) => [g] + Completed(gs[1..])
  }

  /** The maps merged left to right, a later map overwriting an earlier one on a shared key. */
  function UnionAll(gs: seq<EventSet>): (u: EventSet)
    ensures forall i :: 0 <= i < |gs| ==> gs[i].Keys <= u.Keys
    ensures gs != [] ==> forall k :: k in gs[|gs| - 1] ==> u[k] == gs[|gs| - 1][k]
  {
    if gs == [] then map[] else UnionAll(gs[..|gs| - 1]) + gs[|gs| - 1]
  }

  /** A key is in the merged map exactly when some group has it. */
  lemma {:induction false} UnionAllKeys(gs: seq<EventSet>, k: JsString)
    ensures k in UnionAll(gs) <==> exists i :: 0 <= i < |gs| && k in gs[i]
    decreases |gs|
  {
    if gs != [] {
      var front := gs[..|gs| - 1];
      UnionAllKeys(front, k);
      if k in UnionAll(front) {
        var i :| 0 <= i < |front| && k in front[i];
        assert gs[i] == front[i];
      }
      if exists i :: 0 <= i < |gs| && k in gs[i] {
        var i :| 0 <= i < |gs| && k in gs[i];
        if i < |front| {
          assert front[i] == gs[i];
        }
      }
    }
  }

  /** The merged value of a key is the one from the last group that has it. */
  lemma {:induction false} UnionAllLaterWins(gs: seq<EventSet>, i: nat, k: JsString)
    requires i < |gs| && k in gs[i]
    requires forall j :: i < j < |gs| ==> k !in gs[j]
    ensures k in UnionAll(gs) && UnionAll(gs)[k] == gs[i][k]
    decreases |gs|
  {
    if i < |gs| - 1 {
      var front := gs[..|gs| - 1];
      assert front[i] == gs[i];
      UnionAllLaterWins(front, i, k);
    }
  }

  /**
   * What runScraper returns: the groups merged up to the first undefined one;
   * the snapshot only when the merge got through and the read succeeded,
   * otherwise the initial `{}`; then condenseEvents.
   */
  function ScrapeResult(gs: seq<Option<EventSet>>, read: ReadOutcome): EventSet
  {
    var done := Completed(gs);
    var current := if |done| == |gs| && read.ReadValue? then read.snapshot else Some(map[]);
    NewEvents(UnionAll(done), current)
  }

  /** The inner forEach of the merge: every key of one group overwrites the accumulated map. */
  method MergeGroup(acc: EventSet, group: EventSet) returns (merged: EventSet)
    ensures merged.Keys == acc.Keys + group.Keys
    ensures forall k :: k in group ==> merged[k] == group[k]
    ensures forall k :: k in acc && k !in group ==> merged[k] == acc[k]
    ensures merged == acc + group
  {
    merged := acc;
    var keys := group.Keys;
    while keys != {}
      invariant keys <= group.Keys
      invariant merged.Keys == acc.Keys + (group.Keys - keys)
      invariant forall k :: k in group && k !in keys ==> merged[k] == group[k]
      invariant forall k :: k in acc && (k !in group || k in keys) ==> merged[k] == acc[k]
      decreases keys
    {
      var k :| k in keys;
      merged := merged[k := group[k]];
      keys := keys - {k};
    }
    assert merged == acc + group;
  }

  /** The Promise.all over makeRequest: one outcome per enumerated date, in order. */
  method FetchAll(fetch: Fetch, year: nat) returns (val: seq<Option<EventSet>>)
    ensures val == Outcomes(fetch, year)
  {
    var dates := EnumerateDates(year);
    val := [];
    for k := 0 to |dates|
      invariant |val| == k
      invariant forall i :: 0 <= i < k ==> val[i] == MakeRequest(fetch, DateAt(year, i))
    {
      val := val + [MakeRequest(fetch, dates[k])];
    }
  }

  /**
   * The outer forEach of the merge. It stops with threw set at the first
   * undefined group, where Object.keys throws; the groups before it are merged.
   */
  method MergeAll(val: seq<Option<EventSet>>) returns (result: EventSet, threw: bool)
    ensures threw <==> |Completed(val)| < |val|
    ensures result == UnionAll(Completed(val))
  {
    ghost var done := Completed(val);
    result := map[];
    threw := false;
    var idx := 0;
    while idx < |val|
      invariant idx <= |done|
      invariant result == UnionAll(done[..idx])
      invariant !threw
    {
      match val[idx] {
        case None =>
          threw := true;
          break;
        case Some(group) =>
          assert done[..idx + 1][..idx] == done[..idx];
          result := MergeGroup(result, group);
      }
      idx := idx + 1;
    }
    assert done[..|done|] == done;
  }

  /** runScraper after the Promise.all: the merge, the read when the merge got through, then condenseEvents. */
  method MergeAndCondense(val: seq<Option<EventSet>>, read: ReadOutcome) returns (events: EventSet)
    ensures events == ScrapeResult(val, read)
  {
    var result, threw := MergeAll(val);
    var current: Snapshot := Some(map[]);
    if !threw {
      match read {
        case ReadFailed =>
        case ReadValue(s) =>
          current := s;
      }
    }
    events := Condense(result, current);
    assert events == NewEvents(result, current) by {
      assert events.Keys == NewEvents(result, current).Keys;
    }
  }

  /** runScraper for one year, given the network and the outcome of the persisted read. */
  method RunScraper(fetch: Fetch, year: nat, read: ReadOutcome) returns (events: EventSet)
    ensures events == ScrapeResult(Outcomes(fetch, year), read)
  {
    var val := FetchAll(fetch, year);
    events := MergeAndCondense(val, read);
  }

  /** If every request fails or answers a status other than 200, the run yields no events. */
  lemma NoPagesNoEvents(fetch: Fetch, year: nat, read: ReadOutcome)
    requires forall t :: fetch(t).Rejected? || fetch(t).status != 200
    ensures ScrapeResult(Outcomes(fetch, year), read) == map[]
  {
    var done := Completed(Outcomes(fetch, year));
    assert forall i :: 0 <= i < |done| ==> done[i] == map[];
    forall k
      ensures k !in UnionAll(done)
    {
      UnionAllKeys(done, k);
    }
  }

  /** When every request succeeds and the read succeeds, the result is the merged map less the persisted keys. */
  lemma CompleteRunIsDeduplicated(gs: seq<Option<EventSet>>, s: Snapshot, k: JsString)
    requires forall i :: 0 <= i < |gs| ==> gs[i].Some?
    ensures |Completed(gs)| == |gs|
    ensures k in ScrapeResult(gs, ReadValue(s)) <==> k in UnionAll(Completed(gs)) && !Seen(s, k)
  {
  }

  /**
   * Whenever some request threw, the snapshot is ignored and every event
   * merged before the first failed request is reported as new.
   */
  lemma FailedRequestReportsAllMerged(gs: seq<Option<EventSet>>, read: ReadOutcome)
    requires exists i :: 0 <= i < |gs| && gs[i].None?
    ensures ScrapeResult(gs, read) == UnionAll(Completed(gs))
  {
    var i :| 0 <= i < |gs| && gs[i].None?;
    assert |Completed(gs)| < |gs|;
    NothingPersistedAllNew(UnionAll(Completed(gs)), Some(map[]));
  }

  /** When the read throws, every merged event is reported as new. */
  lemma FailedReadReportsAll(gs: seq<Option<EventSet>>)
    ensures ScrapeResult(gs, ReadFailed) == UnionAll(Completed(gs))
  {
  }

  /**
   * As written, one request that threw hides the snapshot: a run whose
   * second request threw reports the first page's event as new although
   * the snapshot already holds it.
   */
  lemma FailedRequestSkipsDeduplication(e: EventRecord, key: JsString)
    ensures var gs := [Some(map[key := e]), None];
      var read := ReadValue(Some(map[key := true]));
      Seen(read.snapshot, key) && key in ScrapeResult(gs, read)
  {
  }

  /**
   * What the catch in makeRequest evidently aims at: a request that threw
   * contributes no events and the merge goes on, so the snapshot is always
   * consulted when it can be read.
   */
  function IntendedScrapeResult(gs: seq<Option<EventSet>>, read: ReadOutcome): EventSet
  {
    var groups := seq(|gs|, i requires 0 <= i < |gs| => if gs[i].Some? then gs[i].value else map[]);
    var current := if read.ReadValue? then read.snapshot else Some(map[]);
    NewEvents(UnionAll(groups), current)
  }

  /** With the intended merge, an event the readable snapshot holds truthily is never reported again. */
  lemma IntendedNeverRepeatsPersisted(gs: seq<Option<EventSet>>, s: Snapshot, k: JsString)
    requires Seen(s, k)
    ensures k !in IntendedScrapeResult(gs, ReadValue(s))
  {
  }

  /** The intended merge agrees with the written one on runs where no request threw. */
  lemma IntendedAgreesWithoutFailures(gs: seq<Option<EventSet>>, read: ReadOutcome)
    requires forall i :: 0 <= i < |gs| ==> gs[i].Some?
    ensures IntendedScrapeResult(gs, read) == ScrapeResult(gs, read)
  {
    var groups := seq(|gs|, i requires 0 <= i < |gs| => if gs[i].Some? then gs[i].value else map[]);
    assert groups == Completed(gs);
  }
}
