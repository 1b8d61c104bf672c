/**
 * Deduplication: WebScraper.condenseEvents keeps the freshly scraped events
 * whose key is not (truthily) present in the persisted snapshot.
 */
module Dedup {
  import opened Wrappers
  import opened JsText
  import opened Listings

  /**
   * The persisted snapshot of /Scraped-Events as condenseEvents sees it:
   * None for null or undefined, otherwise each stored key with whether its
   * stored value is truthy in JavaScript.
   */
  type Snapshot = Option<map<JsString, bool>>

  /** `currentScrapedEvents && currentScrapedEvents[eventKey]` is truthy. */
  predicate Seen(current: Snapshot, k: JsString)
  {
    current.Some? && k in current.value && current.value[k]
  }

  /** The fresh events not seen in the snapshot, each with its value unchanged. */
  function NewEvents(result: EventSet, current: Snapshot): (r: EventSet)
    ensures r.Keys <= result.Keys
    ensures forall k :: k in r ==> r[k] == result[k] && !Seen(current, k)
    ensures forall k :: k in result && !Seen(current, k) ==> k in r
  {
    map k | k in result && !Seen(current, k) :: result[k]
  }

  /** condenseEvents: a loop over the keys of the fresh map, copying each unseen entry. */
  method Condense(result: EventSet, current: Snapshot) returns (condensed: EventSet)
    ensures forall k :: k in condensed <==> k in result && !Seen(current, k)
    ensures forall k :: k in condensed ==> condensed[k] == result[k]
  {
    condensed := map[];
    var keys := result.Keys;
    while keys != {}
      invariant keys <= result.Keys
      invariant forall k :: k in condensed <==> k in result && k !in keys && !Seen(current, k)
      invariant forall k :: k in condensed ==> condensed[k] == result[k]
      decreases keys
    {
      var k :| k in keys;
      if !Seen(current, k) {
        condensed := condensed[k := result[k]];
      }
      keys := keys - {k};
    }
  }

  /** With a null, undefined or empty snapshot, or one whose values are all falsy, every fresh event is new. */
  lemma NothingPersistedAllNew(result: EventSet, current: Snapshot)
    requires current.Some? ==> forall k :: k in current.value ==> !current.value[k]
    ensures NewEvents(result, current) == result
  {
  }

  /** Every event that is new keeps its key and value from the fresh map. */
  lemma NewEventsAreFresh(result: EventSet, current: Snapshot)
    ensures NewEvents(result, current).Keys <= result.Keys
    ensures forall k :: k in NewEvents(result, current) ==> NewEvents(result, current)[k] == result[k]
  {
  }

  /** When every fresh key is already persisted truthily, nothing is new. */
  lemma AllPersistedNothingNew(result: EventSet, current: Snapshot)
    requires forall k :: k in result ==> Seen(current, k)
    ensures NewEvents(result, current) == map[]
  {
  }

  /** A snapshot that sees more keys never yields more new events. */
  lemma NewEventsAntitone(result: EventSet, c1: Snapshot, c2: Snapshot)
    requires forall k :: Seen(c1, k) ==> Seen(c2, k)
    ensures NewEvents(result, c2).Keys <= NewEvents(result, c1).Keys
    ensures |NewEvents(result, c2)| <= |NewEvents(result, c1)|
  {
    var n1, n2 := NewEvents(result, c1), NewEvents(result, c2);
    SubsetCardinality(n2.Keys, n1.Keys);
  }

  /** Persisting entries under new keys never adds output keys. */
  lemma PersistingMoreNeverAddsNew(result: EventSet, stored: map<JsString, bool>, extra: map<JsString, bool>)
    requires stored.Keys !! extra.Keys
    ensures NewEvents(result, Some(stored + extra)).Keys <= NewEvents(result, Some(stored)).Keys
  {
    NewEventsAntitone(result, Some(stored), Some(stored + extra));
  }

  /** A subset of a finite set is no larger. */
  lemma {:induction false} SubsetCardinality(a: set<JsString>, b: set<JsString>)
    requires a <= b
    ensures |a| <= |b|
    decreases |b|
  {
    if a != {} {
      var x :| x in a;
      SubsetCardinality(a - {x}, b - {x});
    }
  }
}
