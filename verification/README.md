# PAC-scraper core, modelled in Dafny

A model of `WebScraper` in `src/index.js`. The class scrapes the 25Live
calendar pages of a year, one page per (month, day) pair. It extracts the event
listings and files each under a hex key derived from its date text and title.
It returns the events whose key the persisted `/Scraped-Events` snapshot does
not already hold. A scheduler alternates between the current year and the next.
It arms its 30-minute timer only once a run has resolved, so 30 minutes separate
the end of one run from the start of the next.

Strings are JavaScript strings: sequences of UTF-16 code units
(`JsText.JsString`). `trim()` and `Number.prototype.toString(radix)` are written
out in `JsText`.

| file | module | models |
|---|---|---|
| `wrappers.dfy` | `Wrappers` | `Option` for `undefined`/`null`, `Result` for thrown errors |
| `js_text.dfy` | `JsText` | code units, `trim()`, `toString(radix)` and reading digits back |
| `hex_key.dfy` | `HexKey` | `toHex` |
| `listings.dfy` | `Listings` | `extractListingsFromHTML` over an already-selected page |
| `date_range.dfy` | `DateRange` | the date loops of `runScraper`, the date token of `makeRequest` |
| `dedup.dfy` | `Dedup` | `condenseEvents` |
| `scraper.dfy` | `Scraper` | `makeRequest`, the merge and the read in `runScraper` |
| `schedule.dfy` | `Schedule` | the alternating-year counter of `startScraper` |

Where the code's behaviour differs from what it evidently intends, the model follows the code:

- The key is the hex of each code unit without padding. It is not made of digit pairs and is not injective (`HexKey.KeyCollision`).
- The "More details..." comparison uses the untrimmed paragraph text.
- Merging runs over the per-date maps in date order, and a later map overwrites an earlier one on a shared key.
- A request that throws does not just drop its own date. `makeRequest` resolves to `undefined`, which stops the whole merge (see Findings).
- The counter flips before the first run, so the first run scrapes the next year.
- Extraction throws when there are more description spans or notes blocks than header blocks.

Determinism of the key needs no lemma: `HexKey.Encode` is a function.

## Model

| member | source | states |
|---|---|---|
| `JsText.LeadingSpaces` | src/index.js:57 | the number of leading white-space units `trim()` drops: all of them are white space and the next one is not |
| `JsText.EndOfText` | src/index.js:57 | where `trim()` cuts the tail: everything after it is white space and the unit before it is not |
| `JsText.Trim` | src/index.js:57-61 | `trim()` returns the contiguous slice that starts after the leading white space; it is empty or starts and ends with a non-space unit, and only white space follows it |
| `JsText.TrimWithoutSpace` | src/index.js:49 | `trim()` leaves a string with no white space unchanged |
| `JsText.TrimUnpadded` | src/index.js:57-61 | `trim()` leaves a string that neither starts nor ends with white space unchanged |
| `JsText.DigitChar` | src/index.js:47 | the digit `toString` writes reads back as its value and is a digit of every larger radix |
| `JsText.NumberToString` | src/index.js:47 | `toString(radix)` gives at least one digit, all in the radix, no leading zero for a positive number, one digit exactly below the radix |
| `JsText.NumberToStringValue` | src/index.js:47 | reading back the digits `toString(radix)` wrote gives the number |
| `HexKey.UnitHex` | src/index.js:47 | one code unit in hex: 1 to 4 hex digits that read back as the unit, exactly 2 for 0x10..0xFF |
| `HexKey.UnitHexUnpadded` | src/index.js:47 | the unit's hex has no zero padding: it starts with '0' only when it is the single digit "0" |
| `HexKey.HexLength` | src/index.js:47 | a code unit has at most four hex digits, exactly two when it lies in 0x10..0xFF, with no leading zero |
| `HexKey.Encode` | src/index.js:44-50 | the key has between one and four hex digits per code unit, so it is empty exactly when the input is |
| `HexKey.ToHex` | src/index.js:44-50 | the loop with `trim()` yields exactly `Encode` of the input, so the trim removes nothing |
| `HexKey.EncodeAppend` | src/index.js:47 | the key of a concatenation is the concatenation of the keys |
| `HexKey.KeyCollision` | src/index.js:47 | without padding, `[0x1, 0x23]` and `[0x12, 0x3]` both give the key `"123"` |
| `HexKey.EncodeInjectiveOnTwoDigitUnits` | src/index.js:44-50 | strings whose code units all lie in 0x10..0xFF never share a key |
| `HexKey.TwoDigitLength` | src/index.js:44-50 | such strings have keys exactly twice their length |
| `Listings.LastMatch` | src/index.js:64-68 | the index of the last paragraph whose untrimmed text is "More details...", or -1: no paragraph after it matches |
| `Listings.LastMoreDetailsLink` | src/index.js:64-68 | absent exactly when no paragraph's untrimmed text is "More details..."; otherwise the href of the last paragraph that matches |
| `Listings.KeyText` | src/index.js:74 | `event.timeDate + event.title`: the date text followed by the title, or by "undefined" when there is no title |
| `Listings.EventKeyParts` | src/index.js:74 | the key is the date text's key followed by the title part's key, and it is empty exactly for an empty date text with an empty title |
| `Listings.Rekey` | src/index.js:71-77 | re-keying never yields more events than records |
| `Listings.RekeyStep` | src/index.js:72-76 | one more record is filed under its key over the map of the records before it |
| `Listings.RekeyHasKey` | src/index.js:71-77 | every record's key is in the re-keyed map |
| `Listings.RekeyKeyOwner` | src/index.js:71-77 | every key in the re-keyed map belongs to some record |
| `Listings.RekeyKeys` | src/index.js:71-77 | a key is in the re-keyed map exactly when some record's `toHex(timeDate + title)` equals it |
| `Listings.RekeyLastWins` | src/index.js:72-76 | a key holds the record with the highest index among those that share it |
| `Listings.RekeyDistinctKeepsAll` | src/index.js:71-77 | records with pairwise distinct keys are all kept |
| `Listings.Extract` | src/index.js:52-78 | the three passes and the fold compute `Extraction` of the page |
| `Listings.HeaderPass` | src/index.js:55-59 | one record per header block, with trimmed date and location text |
| `Listings.DescriptionPass` | src/index.js:60-62 | span i sets the trimmed title of record i; it throws at the first span that has no header record, and only then |
| `Listings.ParagraphPass` | src/index.js:64-68 | the paragraph loop leaves the link of the last matching paragraph, or none |
| `Listings.NotesPass` | src/index.js:63-70 | block i sets extraInfoLink from its last matching paragraph and details to its inner HTML; it throws when it has more blocks than records |
| `Listings.RekeyPass` | src/index.js:71-77 | the fold over the records equals `Rekey` of them |
| `Listings.ExtractionFailsIff` | src/index.js:60-70 | extraction throws exactly when there are more description spans or notes blocks than header blocks |
| `Listings.EmptyPageHasNoEvents` | src/index.js:52-78 | a page with no selected elements yields `{}` |
| `Listings.ExtractionKeys` | src/index.js:52-78 | the extracted keys are exactly the positional records' keys, at most one per header block |
| `Listings.ExtractionLastWins` | src/index.js:71-77 | among records sharing a key, the one with the highest index is kept |
| `Listings.MissingTitleKey` | src/index.js:60-62 | a record without a description span has no title, and its key is the date text's key followed by the key of "undefined" |
| `Listings.NotesFields` | src/index.js:63-70 | a notes block always sets details to its inner HTML, and it sets extraInfoLink exactly when a paragraph matches |
| `Listings.SampleRecord` | src/index.js:55-70 | the three passes turn the one-listing sample page into its event: trimmed texts unchanged, link from the matching paragraph, details from the block's HTML |
| `Listings.SingleListingExample` | src/index.js:52-78 | one complete listing yields exactly one event with date, location, title, link and details set |
| `DateRange.DateAt` | src/index.js:101-106 | every enumerated entry has month in 1..12, day in 1..30 and the run's year |
| `DateRange.DateAtIndex` | src/index.js:101-106 | the pair (month, day) is entry (month - 1) * 30 + (day - 1) |
| `DateRange.DatesMonthMajor` | src/index.js:101-106 | entries are in month-major order: earlier month, or same month and earlier day |
| `DateRange.EnumerateDates` | src/index.js:101-106 | the nested loops push exactly 360 entries, the k-th being `DateAt(year, k)` |
| `DateRange.TwoDigits` | src/index.js:89 | the padded number is all decimal digits; below 10 it is "0" then the digit; below 100 it has exactly two digits and reads back as the number |
| `DateRange.DateToken` | src/index.js:89 | the token is all decimal digits and starts with the year's decimal text |
| `DateRange.DateTokenFields` | src/index.js:89 | for month and day below 100 the token is all digits, the year's length plus 4 long, with a "0" pad before a month or day below 10, and year, month and day read back from their positions |
| `DateRange.DateTokenInjective` | src/index.js:89 | within one year, distinct (month, day) pairs give distinct tokens |
| `DateRange.EnumeratedTokenLength` | src/index.js:96 | every enumerated date's token is the year's length plus 4 |
| `Dedup.NewEvents` | src/index.js:22-33 | the output's keys are fresh keys not seen truthily in the snapshot, with their fresh values, and every such key is in the output |
| `Dedup.Condense` | src/index.js:22-33 | keeps exactly the fresh keys that the snapshot does not map to a truthy value, each with its value unchanged |
| `Dedup.NothingPersistedAllNew` | src/index.js:24-31 | a null, undefined, empty or all-falsy snapshot makes every fresh event new |
| `Dedup.NewEventsAreFresh` | src/index.js:24-31 | output keys are fresh keys, with the fresh values |
| `Dedup.AllPersistedNothingNew` | src/index.js:24-31 | when every fresh key is persisted truthily, the output is empty |
| `Dedup.NewEventsAntitone` | src/index.js:25 | a snapshot that sees more keys yields a subset of the output keys, and no more of them |
| `Dedup.PersistingMoreNeverAddsNew` | src/index.js:25 | adding entries under new keys to the snapshot never adds output keys |
| `Scraper.MakeRequest` | src/index.js:85-98 | undefined exactly when the transport rejected or a 200 page failed to extract; a 200 page that extracts gives exactly its extracted events; any other status gives `{}` |
| `Scraper.Outcomes` | src/index.js:110-112 | one outcome per enumerated date, 360 in all |
| `Scraper.Completed` | src/index.js:113-117 | the groups merged before `Object.keys(undefined)` throws: every group before the first undefined one |
| `Scraper.UnionAll` | src/index.js:113-117 | every merged group's keys are in the result, and the last group's values win |
| `Scraper.UnionAllKeys` | src/index.js:113-117 | a key is in the merged map exactly when some merged group has it |
| `Scraper.UnionAllLaterWins` | src/index.js:113-117 | the merged value of a key comes from the last group that has it |
| `Scraper.MergeGroup` | src/index.js:114-116 | the keys of one group are added, its values overwrite and the other keys keep their values |
| `Scraper.FetchAll` | src/index.js:110-112 | `Promise.all` over `makeRequest` gives the outcomes in enumeration order |
| `Scraper.MergeAll` | src/index.js:113-117 | the merge throws exactly when some group is undefined, having merged the groups before the first undefined one |
| `Scraper.MergeAndCondense` | src/index.js:113-122 | the merge, the read and condenseEvents after `Promise.all` compute `ScrapeResult` of the outcomes |
| `Scraper.RunScraper` | src/index.js:100-123 | the run returns `ScrapeResult`: completed groups merged, deduplicated against the snapshot only when the merge and the read both succeeded |
| `Scraper.NoPagesNoEvents` | src/index.js:89-97 | if no request answers 200, the run returns `{}` |
| `Scraper.CompleteRunIsDeduplicated` | src/index.js:113-122 | when no request threw and the read succeeded, a key is returned exactly when it was merged and is not persisted truthily |
| `Scraper.FailedReadReportsAll` | src/index.js:118-122 | when the read throws, everything merged is returned as new |
| `Scraper.FailedRequestReportsAllMerged` | src/index.js:110-122 | whenever some request threw, the run returns every group merged before it, whatever the snapshot holds |
| `Scraper.FailedRequestSkipsDeduplication` | src/index.js:95-97 | as written, a thrown request makes a persisted event come back as new |
| `Scraper.IntendedNeverRepeatsPersisted` | src/index.js:110-122 | with failed requests skipped, an event the readable snapshot holds truthily is never returned |
| `Scraper.IntendedAgreesWithoutFailures` | src/index.js:110-122 | the corrected merge equals the written one when no request threw |
| `Schedule.Toggle` | src/index.js:130-134 | from 0 or 1 the counter moves to the other of the two |
| `Schedule.OffsetAfter` | src/index.js:126-134 | the counter only ever holds 0 or 1 |
| `Schedule.OffsetAfterParity` | src/index.js:130-134 | after n flips the counter equals n mod 2 |
| `Schedule.Scheduler.constructor` | src/index.js:126-128 | the counter starts at 0 with years = [current year, current year + 1] |
| `Schedule.Scheduler.Step` | src/index.js:130-135 | the counter flips, then the year it selects is returned, and the invariant is kept |
| `Schedule.FirstCycles` | src/index.js:125-146 | run k (from 0) scrapes current year + (k + 1) mod 2, so the next year comes first |

The delay between runs is `Schedule.CycleDelayMs`, 1000 * 60 * 30 = 1,800,000 ms (src/index.js:141).

## Left out

- Firebase initialisation and `getScrapedEvents`: database I/O. The read is the parameter `Scraper.ReadOutcome`.
- `Dedup.Snapshot` keeps only each stored value's truthiness. A snapshot that is a primitive value, not an object, is not modelled.
- The `axios.get` call and the URL text around the date token: network I/O. The network is the parameter `Scraper.Fetch`, from date token to response. Whether a status makes the transport reject is left to that parameter; axios rejects non-2xx statuses by default.
- Cheerio parsing and CSS selector matching: a foreign library. `Listings.Document` holds the element sequences the selectors return.
- `Promise.all` concurrency: the outcomes are taken in enumeration order, as `Promise.all` returns them.
- `setTimeout`, `process.exit` after 24 hours and `new Date()`: timers and the wall clock. The current year is a parameter, and `Schedule.FirstCycles` drives the run chain for a given number of runs.
- The order of `Object.keys`: `Dedup.Condense` and `Scraper.MergeGroup` visit keys in any order. Their results do not depend on it.
- `console.log` and `console.warn` logging, and the `process.env` configuration.
- The constructor's method bindings and `init`: they only wire the class up.
- Code units are modelled, not characters: a character outside the Basic Multilingual Plane is two code units, as `charCodeAt` sees it.

## Findings

| source | as written | input that shows it | evidently intended | confidence | as-written member | corrected member |
|---|---|---|---|---|---|---|
| src/index.js:95-97 | `makeRequest` resolves to `undefined` when its request throws. `Object.keys(undefined)` then throws in the merge, so the snapshot is never read and everything merged so far is returned as new | first request returns a page with event K, already persisted truthily; second request throws: K is returned as new | a failed request contributes no events, the merge goes on, and the snapshot is consulted | high; not executed | `Scraper.FailedRequestSkipsDeduplication` | `Scraper.IntendedNeverRepeatsPersisted` |
