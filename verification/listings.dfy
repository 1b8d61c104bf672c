/**
 * Listing extraction: WebScraper.extractListingsFromHTML over a page that
 * has already been parsed and selected. Three selector passes fill records
 * by position (header blocks, description spans, notes blocks), then the
 * records are re-keyed by the hex key of date text plus title.
 */
module Listings {
  import opened Wrappers
  import opened JsText
  import opened HexKey

  /** One div.twRyoPhotoEventsItemHeader: the raw text of its date child and of its location child. */
  datatype Header = Header(dateText: JsString, locationText: JsString)

  /** One p child of a notes block: its untrimmed text and the href of its first link child, if any. */
  datatype Paragraph = Paragraph(text: JsString, href: Option<JsString>)

  /** One div.twRyoPhotoEventsNotes: its paragraphs in order and its inner HTML. */
  datatype NotesBlock = NotesBlock(paragraphs: seq<Paragraph>, innerHtml: JsString)

  /**
   * A parsed page as the three selectors see it, each in document order;
   * a description is the raw text of the link inside span.twRyoPhotoEventsDescription.
   */
  datatype Document = Document(headers: seq<Header>, descriptions: seq<JsString>, notes: seq<NotesBlock>)

  /**
   * One event object. Fields a pass never assigned are None. extraInfoLink is
   * Some(href) once a "More details..." paragraph was seen, where href itself
   * is None when that paragraph has no link (the property is then undefined).
   */
  datatype EventRecord = EventRecord(
    timeDate: JsString,
    calendar: JsString,
    title: Option<JsString>,
    extraInfoLink: Option<Option<JsString>>,
    details: Option<JsString>)

  /** Events keyed by their hex key. */
  type EventSet = map<JsString, EventRecord>

  /** The TypeError thrown when a pass reaches an index that has no header record. */
  datatype ExtractError = NoHeaderForDescription(index: nat) | NoHeaderForNotes(index: nat)

  /** The exact paragraph text that marks the link to more details. */
  const MoreDetails: JsString := Lit("More details...")

  /** What string concatenation writes for a missing property. */
  const Undefined: JsString := Lit("undefined")

  /** The record the header pass creates: trimmed date and location text. */
  function HeaderRecord(h: Header): EventRecord
  {
    EventRecord(Trim(h.dateText), Trim(h.locationText), None, None, None)
  }

  /** The index of the last paragraph whose untrimmed text is exactly "More details...", or -1 when none is. */
  function LastMatch(ps: seq<Paragraph>): (j: int)
    ensures -1 <= j < |ps|
    ensures 0 <= j ==> ps[j].text == MoreDetails
    ensures forall j' :: j < j' < |ps| ==> ps[j'].text != MoreDetails
  {
    if ps == [] then -1
    else if ps[|ps| - 1].text == MoreDetails then |ps| - 1
    else
      var front := ps[..|ps| - 1];
      assert forall k :: 0 <= k < |front| ==> front[k] == ps[k];
      LastMatch(front)
  }

  /**
   * The link of the last paragraph whose untrimmed text is exactly
   * "More details...", or None when no paragraph matches.
   */
  function LastMoreDetailsLink(ps: seq<Paragraph>): (r: Option<Option<JsString>>)
    ensures r == None <==> forall j :: 0 <= j < |ps| ==> ps[j].text != MoreDetails
    ensures r.Some? ==> exists j :: 0 <= j < |ps| && ps[j].text == MoreDetails && ps[j].href == r.value
                                  && forall j' :: j < j' < |ps| ==> ps[j'].text != MoreDetails
  {
    var j := LastMatch(ps);
    if j < 0 then None else Some(ps[j].href)
  }

  /** Record i after the header and description passes. */
  function TitledRecord(doc: Document, i: nat): EventRecord
    requires i < |doc.headers|
  {
    var e := HeaderRecord(doc.headers[i]);
    if i < |doc.descriptions| then e.(title := Some(Trim(doc.descriptions[i]))) else e
  }

  /** Record i after all three passes. */
  function RecordAt(doc: Document, i: nat): EventRecord
    requires i < |doc.headers|
  {
    var e := TitledRecord(doc, i);
    if i < |doc.notes| then
      e.(extraInfoLink := LastMoreDetailsLink(doc.notes[i].paragraphs), details := Some(doc.notes[i].innerHtml))
    else e
  }

  /** The positional records, one per header block. */
  function Positional(doc: Document): seq<EventRecord>
  {
    seq(|doc.headers|, i requires 0 <= i < |doc.headers| => RecordAt(doc, i))
  }

  /** The text `event.timeDate + event.title` that the key is derived from. */
  function KeyText(e: EventRecord): (t: JsString)
    ensures |e.timeDate| <= |t| && t[..|e.timeDate|] == e.timeDate
    ensures e.title.Some? ==> t[|e.timeDate|..] == e.title.value
    ensures e.title.None? ==> t[|e.timeDate|..] == Undefined
  {
    e.timeDate + (if e.title.Some? then e.title.value else Undefined)
  }

  /** The key an event is filed under: toHex of its key text. */
  function EventKey(e: EventRecord): JsString
  {
    Encode(KeyText(e))
  }

  /** The key is the date text's key followed by the title part's key, so it is empty only for an empty date text with an empty title. */
  lemma EventKeyParts(e: EventRecord)
    ensures EventKey(e) == Encode(e.timeDate) + Encode(KeyText(e)[|e.timeDate|..])
    ensures EventKey(e) == [] <==> e.timeDate == [] && e.title == Some([])
  {
    EncodeAppend(e.timeDate, KeyText(e)[|e.timeDate|..]);
    assert KeyText(e) == e.timeDate + KeyText(e)[|e.timeDate|..];
  }

  /** The records folded into a map by key, in index order, a later record replacing an earlier one. */
  function Rekey(rs: seq<EventRecord>): (r: EventSet)
    ensures |r| <= |rs|
  {
    if rs == [] then map[] else Rekey(rs[..|rs| - 1])[EventKey(rs[|rs| - 1]) := rs[|rs| - 1]]
  }

  /** Re-keying one more record files it under its key over the map of the records before it. */
  lemma RekeyStep(rs: seq<EventRecord>, i: nat)
    requires i < |rs|
    ensures Rekey(rs[..i + 1]) == Rekey(rs[..i])[EventKey(rs[i]) := rs[i]]
  {
    assert rs[..i + 1][..i] == rs[..i];
  }

  /** Every record's key is in the re-keyed map. */
  lemma {:induction false} RekeyHasKey(rs: seq<EventRecord>, i: nat)
    requires i < |rs|
    ensures EventKey(rs[i]) in Rekey(rs)
    decreases |rs|
  {
    var front := rs[..|rs| - 1];
    if i < |front| {
      RekeyHasKey(front, i);
      assert front[i] == rs[i];
    }
  }

  /** A key in the re-keyed map belongs to some record, whose index this returns. */
  lemma {:induction false} RekeyKeyOwner(rs: seq<EventRecord>, k: JsString) returns (i: nat)
    requires k in Rekey(rs)
    ensures i < |rs| && EventKey(rs[i]) == k
    decreases |rs|
  {
    var front := rs[..|rs| - 1];
    if k == EventKey(rs[|rs| - 1]) {
      i := |rs| - 1;
    } else {
      i := RekeyKeyOwner(front, k);
      assert front[i] == rs[i];
    }
  }

  /** A key is in the re-keyed map exactly when some record has it. */
  lemma RekeyKeys(rs: seq<EventRecord>, k: JsString)
    ensures k in Rekey(rs) <==> exists i :: 0 <= i < |rs| && EventKey(rs[i]) == k
  {
    if k in Rekey(rs) {
      var i := RekeyKeyOwner(rs, k);
    } else {
      forall i | 0 <= i < |rs|
        ensures EventKey(rs[i]) != k
      {
        RekeyHasKey(rs, i);
      }
    }
  }

  /** What extraction returns for a page, or the error it throws. */
  function Extraction(doc: Document): Result<EventSet, ExtractError>
  {
    if |doc.descriptions| > |doc.headers| then Err(NoHeaderForDescription(|doc.headers|))
    else if |doc.notes| > |doc.headers| then Err(NoHeaderForNotes(|doc.headers|))
    else Ok(Rekey(Positional(doc)))
  }

  /** extractListingsFromHTML: the three selector passes over the records, then the re-keying fold. */
  method Extract(doc: Document) returns (r: Result<EventSet, ExtractError>)
    ensures r == Extraction(doc)
  {
    var events := HeaderPass(doc.headers);
    var titled := DescriptionPass(doc, events);
    if titled.Err? {
      return Err(titled.error);
    }
    var noted := NotesPass(doc, titled.value);
    if noted.Err? {
      return Err(noted.error);
    }
    var finalEvents := RekeyPass(noted.value);
    return Ok(finalEvents);
  }

  /** The header pass: one record per header block, in document order. */
  method HeaderPass(headers: seq<Header>) returns (events: seq<EventRecord>)
    ensures |events| == |headers|
    ensures forall k :: 0 <= k < |headers| ==> events[k] == HeaderRecord(headers[k])
  {
    events := [];
    for i := 0 to |headers|
      invariant |events| == i
      invariant forall k :: 0 <= k < i ==> events[k] == HeaderRecord(headers[k])
    {
      events := events + [HeaderRecord(headers[i])];
    }
  }

  /** The description pass: the i-th span sets the title of record i, and throws when there is no record i. */
  method DescriptionPass(doc: Document, events: seq<EventRecord>) returns (r: Result<seq<EventRecord>, ExtractError>)
    requires |events| == |doc.headers|
    requires forall k :: 0 <= k < |events| ==> events[k] == HeaderRecord(doc.headers[k])
    ensures r.Err? <==> |doc.descriptions| > |doc.headers|
    ensures r.Err? ==> r.error == NoHeaderForDescription(|doc.headers|)
    ensures r.Ok? ==> |r.value| == |doc.headers| && forall k :: 0 <= k < |doc.headers| ==> r.value[k] == TitledRecord(doc, k)
  {
    var titled := events;
    for i := 0 to |doc.descriptions|
      invariant i <= |doc.headers| == |titled|
      invariant forall k :: 0 <= k < |titled| ==>
        titled[k] == if k < i then TitledRecord(doc, k) else HeaderRecord(doc.headers[k])
    {
      if i >= |titled| {
        return Err(NoHeaderForDescription(i));
      }
      titled := titled[i := titled[i].(title := Some(Trim(doc.descriptions[i])))];
    }
    return Ok(titled);
  }

  /** The inner loop of the notes pass: every paragraph reading "More details..." overwrites the link, so the last one wins. */
  method ParagraphPass(ps: seq<Paragraph>) returns (link: Option<Option<JsString>>)
    ensures link == LastMoreDetailsLink(ps)
  {
    link := None;
    for j := 0 to |ps|
      invariant link == LastMoreDetailsLink(ps[..j])
    {
      assert ps[..j + 1][..j] == ps[..j];
      if ps[j].text == MoreDetails {
        link := Some(ps[j].href);
      }
    }
    assert ps[..|ps|] == ps;
  }

  /** The notes pass: block i sets extraInfoLink from its paragraphs and details of record i, and throws when there is no record i. */
  method NotesPass(doc: Document, events: seq<EventRecord>) returns (r: Result<seq<EventRecord>, ExtractError>)
    requires |doc.descriptions| <= |doc.headers| == |events|
    requires forall k :: 0 <= k < |events| ==> events[k] == TitledRecord(doc, k)
    ensures r.Err? <==> |doc.notes| > |doc.headers|
    ensures r.Err? ==> r.error == NoHeaderForNotes(|doc.headers|)
    ensures r.Ok? ==> r.value == Positional(doc)
  {
    var noted := events;
    for i := 0 to |doc.notes|
      invariant i <= |doc.headers| == |noted|
      invariant forall k :: 0 <= k < |noted| ==>
        noted[k] == if k < i then RecordAt(doc, k) else TitledRecord(doc, k)
    {
      if i >= |noted| {
        return Err(NoHeaderForNotes(i));
      }
      var link := ParagraphPass(doc.notes[i].paragraphs);
      noted := noted[i := noted[i].(extraInfoLink := link, details := Some(doc.notes[i].innerHtml))];
    }
    return Ok(noted);
  }

  /** The final fold: each record is filed under the key toHex derives from its date text and title. */
  method RekeyPass(events: seq<EventRecord>) returns (finalEvents: EventSet)
    ensures finalEvents == Rekey(events)
  {
    finalEvents := map[];
    for i := 0 to |events|
      invariant finalEvents == Rekey(events[..i])
    {
      var e := events[i];
      var key := ToHex(e.timeDate + (if e.title.Some? then e.title.value else Undefined));
      assert key == EventKey(e);
      RekeyStep(events, i);
      finalEvents := finalEvents[key := e];
    }
    assert events[..|events|] == events;
  }

  /** Extraction throws exactly when a later pass has more elements than there are header blocks. */
  lemma ExtractionFailsIff(doc: Document)
    ensures Extraction(doc).Err? <==> |doc.descriptions| > |doc.headers| || |doc.notes| > |doc.headers|
  {
  }

  /** A page with none of the selected elements yields no events. */
  lemma EmptyPageHasNoEvents()
    ensures Extraction(Document([], [], [])) == Ok(map[])
  {
  }

  /** The keys extracted are exactly the keys of the positional records, so there are at most as many as header blocks. */
  lemma ExtractionKeys(doc: Document, k: JsString)
    requires Extraction(doc).Ok?
    ensures |Extraction(doc).value| <= |doc.headers|
    ensures k in Extraction(doc).value <==> exists i :: 0 <= i < |doc.headers| && EventKey(RecordAt(doc, i)) == k
  {
    var rs := Positional(doc);
    RekeyKeys(rs, k);
    if k in Extraction(doc).value {
      var i :| 0 <= i < |rs| && EventKey(rs[i]) == k;
      assert EventKey(RecordAt(doc, i)) == k;
    }
    if exists i :: 0 <= i < |doc.headers| && EventKey(RecordAt(doc, i)) == k {
      var i :| 0 <= i < |doc.headers| && EventKey(RecordAt(doc, i)) == k;
      assert EventKey(rs[i]) == k;
    }
  }

  /** The record filed under a key is the one with the highest index among those with that key. */
  lemma {:induction false} RekeyLastWins(rs: seq<EventRecord>, i: nat)
    requires i < |rs|
    requires forall j :: i < j < |rs| ==> EventKey(rs[j]) != EventKey(rs[i])
    ensures EventKey(rs[i]) in Rekey(rs) && Rekey(rs)[EventKey(rs[i])] == rs[i]
    decreases |rs|
  {
    if i < |rs| - 1 {
      var front := rs[..|rs| - 1];
      assert front[i] == rs[i];
      RekeyLastWins(front, i);
    }
  }

  /** Of the records sharing a key, extraction keeps the one with the highest index. */
  lemma ExtractionLastWins(doc: Document, i: nat)
    requires Extraction(doc).Ok? && i < |doc.headers|
    requires forall j :: i < j < |doc.headers| ==> EventKey(RecordAt(doc, j)) != EventKey(RecordAt(doc, i))
    ensures EventKey(RecordAt(doc, i)) in Extraction(doc).value
    ensures Extraction(doc).value[EventKey(RecordAt(doc, i))] == RecordAt(doc, i)
  {
    RekeyLastWins(Positional(doc), i);
  }

  /** Records with pairwise distinct keys are all kept. */
  lemma {:induction false} RekeyDistinctKeepsAll(rs: seq<EventRecord>)
    requires forall i, j :: 0 <= i < j < |rs| ==> EventKey(rs[i]) != EventKey(rs[j])
    ensures |Rekey(rs)| == |rs|
    decreases |rs|
  {
    if rs != [] {
      var front := rs[..|rs| - 1];
      RekeyDistinctKeepsAll(front);
      RekeyKeys(front, EventKey(rs[|rs| - 1]));
      assert EventKey(rs[|rs| - 1]) !in Rekey(front);
    }
  }

  /** Without a description span a record's key text ends in "undefined". */
  lemma MissingTitleKey(doc: Document, i: nat)
    requires |doc.descriptions| <= i < |doc.headers|
    ensures RecordAt(doc, i).title == None
    ensures EventKey(RecordAt(doc, i)) == Encode(Trim(doc.headers[i].dateText)) + Encode(Undefined)
  {
    EncodeAppend(Trim(doc.headers[i].dateText), Undefined);
  }

  /** A notes block always sets details to its inner HTML, and extraInfoLink only when a paragraph matched. */
  lemma NotesFields(doc: Document, i: nat)
    requires i < |doc.headers| && i < |doc.notes|
    ensures RecordAt(doc, i).details == Some(doc.notes[i].innerHtml)
    ensures RecordAt(doc, i).extraInfoLink.None? <==>
      forall j :: 0 <= j < |doc.notes[i].paragraphs| ==> doc.notes[i].paragraphs[j].text != MoreDetails
  {
  }

  /** The one-listing page of SingleListingExample. */
  function SampleDocument(): Document
  {
    Document(
      [Header(Lit("Jan 5, 2024 3:00 PM"), Lit("Main Hall"))],
      [Lit("Recital")],
      [NotesBlock([Paragraph(Lit("More details..."), Some(Lit("/info/1")))], Lit("<p><a href=\"/info/1\">More details...</a></p>"))])
  }

  /** The event that page describes, every field set. */
  function SampleEvent(): EventRecord
  {
    EventRecord(Lit("Jan 5, 2024 3:00 PM"), Lit("Main Hall"), Some(Lit("Recital")),
                Some(Some(Lit("/info/1"))), Some(Lit("<p><a href=\"/info/1\">More details...</a></p>")))
  }

  /** The three passes turn the one-listing page into its event: trimmed texts unchanged, link taken from the paragraph. */
  lemma SampleRecord()
    ensures |SampleDocument().headers| == 1
    ensures RecordAt(SampleDocument(), 0) == SampleEvent()
  {
    var date, place, title := Lit("Jan 5, 2024 3:00 PM"), Lit("Main Hall"), Lit("Recital");
    assert date[0] == 0x4A && date[|date| - 1] == 0x4D;
    assert place[0] == 0x4D && place[|place| - 1] == 0x6C;
    assert title[0] == 0x52 && title[|title| - 1] == 0x6C;
    TrimUnpadded(date);
    TrimUnpadded(place);
    TrimUnpadded(title);
  }

  /** A page with one complete listing yields exactly that event, every field set and the link taken from its paragraph. */
  lemma SingleListingExample()
    ensures Extraction(SampleDocument()) == Ok(map[EventKey(SampleEvent()) := SampleEvent()])
  {
    var e := SampleEvent();
    SampleRecord();
    assert Positional(SampleDocument()) == [e];
    assert [e][..0] == [];
  }
}
