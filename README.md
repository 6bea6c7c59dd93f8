# Link checker extension: a Dafny model

This project models the core of a browser extension that finds broken links on a site. Its parts are:

- **Background worker** (`dist/background.js`). It checks each link with a HEAD request (falling back to GET), and a request in CORS mode is retried in no-cors mode. It checks a page's links in batches of ten against a session cache. It crawls the pages of the target's origin down to a maximum depth, and a cancel request from the popup can stop the crawl.
- **Content script** (`content.js`). It extracts the links of a page and leaves out the ones that should not be checked.
- **Popup** (`popup.js`). It holds the link-list helpers, the enabled state of the "check" button, the maximum-depth validation, and the query of the report page it opens.
- **Report page** (`plugin-scan.js`). It reads the scan options from its query and keeps live counters. It builds the final summary and the grouped, sorted result list, and exports that list as CSV under a derived file name.

The modules are:

| module | file | what it holds |
|---|---|---|
| `Strings` | `strings.dfy` | string helpers the source gets from JavaScript: `startsWith`, `includes`, `toLowerCase`, `trim`, `parseInt`, decimal printing |
| `Links` | `links.dfy` | the link record the scripts pass around |
| `Fetch` | `fetch.dfy` | `fetchWithTimeout`, `checkLinkWithFallback` and `checkSingleLink`, as functions of a network oracle that also records the requests made |
| `Batches` | `batches.dfy` | the specification functions of `performLinkChecking`'s batch loop, and lemmas about them |
| `Checker` | `checker.dfy` | the `LinkChecker` class with its abort controller, `cancelCurrentScan`, `performLinkChecking` and `scanAndCheckDomain`; the class `DomainScan` holds the `scanPage` closure's state |
| `Content` | `content.dfy` | `shouldSkipLink` and the content script's `scanPage` |
| `Popup` | `popup.dfy` | the popup's helpers |
| `Report` | `report.dfy` | the report page |

## Concurrency and the clock

The worker is single-threaded. Another message handler, such as the popup's cancel request, can run only while a scan is suspended at an `await`. The model works as follows:

- `LinkChecker.ticks` counts those suspensions.
- The one cancel request, if any, is handled at the suspension numbered `cancelAt`.
- The checks of one batch run between the batch's two suspensions. The model settles them in batch order.
- All checks of a batch see the cache as it stood when the batch began. This is what the source does: every callback tests `linkCache.has` before any of the batch's fetches resolves.
- `Date.now()` is an oracle indexed by suspension and entry.
- The network, the tabs and `new URL(...).origin` are oracles fixed when the checker is constructed.

## Model

| member | source | states |
|---|---|---|
| Fetch.FetchWithTimeout | dist/background.js:564-599 | A CORS request comes first. A no-cors retry is made exactly when the CORS request throws. A CORS response is returned as is. A no-cors response is opaque, so it is returned with status 0. The call throws only when both modes throw. |
| Fetch.FromResponse | dist/background.js:533-537 | working iff the status is an ok status (200-299); the status code is kept; an error "HTTP <status>" is present exactly when not working |
| Fetch.CheckLinkWithFallback | dist/background.js:502-562 | HEAD first. A HEAD status of 403 is retried with GET, and a GET that throws gives "HTTP 403". A HEAD that throws falls back to GET, and a GET that also throws gives no status and the GET's error. The result is working iff it has an ok status iff it has no error. |
| Fetch.CheckSingleLink | dist/background.js:478-500 | sets status, status code, error and checkedAt; Broken iff the fallback check is not working; Working iff an ok status iff no error; every other field unchanged |
| Fetch.OpaqueFallbackIsBroken | dist/background.js:584-592 | a response that came back in no-cors mode is opaque, so the link is reported broken with "HTTP 0" |
| Fetch.HeadTimeoutGetOk | dist/background.js:540-552 | a HEAD that fails in both modes, followed by a GET answering 200, gives a working link after exactly three requests |
| Strings.NatToDecimal | popup.js:177 | `${n}` for a non-negative integer: a non-empty run of decimal digits without a leading zero |
| Strings.DecimalValueOf | popup.js:177 | those digits denote n |
| Strings.ParseInt | popup.js:149 | `parseInt` without a radix: a string that is empty after leading white space reads as NaN; ParseIntOfDecimal gives its partner property |
| Strings.ParseIntOfDecimal | popup.js:149 | `parseInt` reads back exactly the number `${n}` wrote, for every n |
| Batches.BatchOf | dist/background.js:363-370 | each entry lies in the batch of ten that starts at a multiple of ten at or before it |
| Batches.LinksAfter | dist/background.js:363-472 | running the batches leaves the list's length unchanged |
| Batches.BatchesRun | dist/background.js:363-368 | The loop runs batches until the list is exhausted or the signal is aborted at the top of a batch. No batch before that point saw an abort. |
| Batches.CancelSeenStep | dist/background.js:324-334 | one more suspension raises the flag exactly when the cancel request is handled at that suspension |
| Batches.BatchWritesKeep | dist/background.js:417-425 | the batch's writes never remove or change a cache entry that was already there |
| Batches.BatchWritesKeys | dist/background.js:417-425 | after a batch, a URL is in the cache iff it was there before or an entry of the batch has it |
| Batches.BatchWritesValues | dist/background.js:415-425 | every entry a batch adds is the outcome of checking some entry of the batch that has that URL |
| Batches.BatchWritesStore | dist/background.js:415-425 | an entry that missed the cache and whose URL is unique in its batch has its own checked outcome stored under its URL |
| Batches.BatchWritesStep | dist/background.js:415-425 | the writes step by one entry: a hit adds nothing; a miss stores that entry's checked outcome |
| Batches.CheckAt | dist/background.js:415 | the checker run for an entry is `checkSingleLink` with the clock reading of that entry |
| Batches.ResolveEntry | dist/background.js:380-415 | an entry whose URL is in the batch's snapshot is served from it: marked cached, same URL and page, and carrying the stored outcome; a miss is checked (BatchWritesStep and ResolveKeepsLink give the rest) |
| Batches.BatchWrites | dist/background.js:417-425 | the writes of one batch keep every URL the snapshot held (BatchWritesKeys and BatchWritesValues say what is added) |
| Batches.CacheAfter | dist/background.js:363-472 | the cache after k batches; CacheAfterGrows, CacheAfterHas and CacheAfterOnly state what it holds |
| Batches.BatchWritesFrame | dist/background.js:417-425 | a batch's writes depend only on the batch's own entries |
| Batches.BatchOfIn | dist/background.js:363-370 | an index in batch b belongs to batch b |
| Batches.CacheAfterNext | dist/background.js:363-472 | the cache after batch b + 1 is the cache after batch b plus the writes of batch b |
| Batches.LinksAfterAt | dist/background.js:373-402 | An entry in a batch that ran is resolved against the cache as its batch found it. A hit copies the cached outcome and is marked cached. A miss is the result of its own check. |
| Batches.LinksAfterUntouched | dist/background.js:363-368 | entries after the last batch that ran keep their state |
| Batches.BatchAdvance | dist/background.js:363-472 | one batch moves the loop's state to the specification's next state |
| Batches.CacheAfterGrows | dist/background.js:380-425 | a cached outcome stays in the cache, unchanged, through every later batch |
| Batches.CacheAfterHas | dist/background.js:380-425 | every URL of a batch that ran is in the cache afterwards |
| Batches.CacheAfterOnly | dist/background.js:380-425 | every URL the call adds to the cache belongs to an entry of a batch that ran |
| Batches.CheckDecides | dist/background.js:485-496 | a check always decides working or broken |
| Batches.BatchWritesResolved | dist/background.js:417-425 | a batch stores only decided outcomes |
| Batches.CacheAfterResolved | dist/background.js:417-425 | a cache holding only decided outcomes still holds only decided outcomes after any number of batches |
| Batches.ResultsKeepLinks | dist/background.js:341-346 | the results are the same links in the same order, each tagged with the page URL |
| Batches.ResolveKeepsLink | dist/background.js:380-415 | resolving an entry keeps its URL, text, type and page |
| Batches.ProcessedAreDecided | dist/background.js:363-472 | when the cache holds only decided outcomes, every entry of a batch that ran is decided; the entries after it stay as tagged |
| Batches.RepeatServedFromCache | dist/background.js:380-387 | a URL checked in an earlier batch is served from the cache |
| Batches.CheckedOutcomeStored | dist/background.js:417-425 | a miss whose URL is unique in its batch leaves its own outcome in the cache |
| Batches.CheckedOutcomeKept | dist/background.js:417-425 | that stored outcome is the one the cache holds after every later batch |
| Batches.NoCancelRunsAll | dist/background.js:363-368 | without a cancel request every batch runs |
| Checker.AbortController.Abort | dist/background.js:328 | aborting raises the signal's flag |
| Checker.StampsChecks | dist/background.js:488 | the check of batch b, called at dist/background.js line 415, reads the clock at that batch's settling suspension |
| Checker.Awaits | dist/background.js:461-471 | A call running k batches takes at most 2k suspensions. Each batch has a settle, and every batch but the last also has the 200 ms delay. |
| Checker.EarlyStopIsCancel | dist/background.js:363-368 | a call that stops before the end saw the abort flag |
| Checker.CancelSeenTrans | dist/background.js:324-334 | the abort flag over two consecutive spans is the flag over the whole span |
| Checker.Internal | dist/background.js:220-221 | the number of internal links is at most the number of results |
| Checker.InternalAppend | dist/background.js:220-221 | the internal-link count adds up over appended pages |
| Checker.DecidedAppend | dist/background.js:209 | appending two lists of decided links gives decided links |
| Checker.TrackingUrl | dist/background.js:188-190 | The page is tracked under its canonical URL when it has a non-empty one, otherwise under its own URL. Both directions are stated. |
| Checker.ReplyOf | dist/background.js:180-186 | A rejected message is an error carrying its message. A successful reply gives its canonical URL and links. An unsuccessful reply gives nothing to scan. |
| Checker.TagLinks | dist/background.js:341-346 | the loop tags every link with the page URL and changes nothing else |
| Checker.LinkChecker.constructor | dist/background.js:70-92 | no current controller, no suspensions yet, and the given oracles |
| Checker.LinkChecker.CancelCurrentScan | dist/background.js:324-334 | With a current scan, it aborts its controller, clears it and answers success. Without one it answers success = false with "No active scan to cancel". |
| Checker.LinkChecker.Suspend | dist/background.js:116-180 | one suspension; the flag goes up exactly when the cancel request is handled there |
| Checker.LinkChecker.LookUpBatch | dist/background.js:373-402 | every entry of the batch is resolved from the cache snapshot: it gets the cached outcome and is marked cached exactly when its URL is in the cache |
| Checker.LinkChecker.SettleEntry | dist/background.js:404-457 | one entry is settled as the specification says, and its outcome is written on a miss |
| Checker.LinkChecker.SettleBatch | dist/background.js:404-461 | a batch is settled as the specification says |
| Checker.LinkChecker.RunBatch | dist/background.js:370-471 | a batch is resolved and written as the specification says, then takes its settle and delay suspensions |
| Checker.LinkChecker.CheckBatches | dist/background.js:363-472 | The loop's results and cache equal the specification functions after the batches that run. The suspensions taken and the abort flag agree with the scheduler. |
| Checker.LinkChecker.PerformLinkChecking | dist/background.js:337-476 | The results equal the specification after the batches that run. They are the same links in order, tagged with the page. The cache only gains entries, and only decided ones. A call that is not cancelled decides every link. |
| Checker.LinkChecker.ScanAndCheckDomain | dist/background.js:70-266 | An invalid target gives the URL error. Every link was found on the target or on a page of the target's origin. With depth 0 or no depth, links come only from the target. A scan that no cancel reached decides every link. An error is the URL error, a tab error or a page's rejected message. Afterwards there is no current controller. A finished scan reports as `pagesScanned` the number of tracking keys it recorded, each the `canonicalUrl \|\| url` of a page that replied with success. When no cancel was seen and the target replied with success, the target's own tracking key is among them, and the target's links, checked and tagged with the target, open the response in their order; at depth 0 (the default) they are the whole response. Tabs are opened only for the target and for URLs of its origin, the target's always when the depth is not negative. |
| Checker.AbortController.constructor | dist/background.js:75 | a new controller's signal is not aborted |
| Checker.LinkCache.constructor | dist/background.js:85 | the session cache starts empty |
| Checker.DomainScan.constructor | dist/background.js:78-91 | empty visited set and results, zero counters, the scan's parameters |
| Checker.DomainScan.LoadPage | dist/background.js:115-186 | A tab that does not open is the "Failed to open tab" error. Otherwise the result is the content script's reply, or nothing to scan. A page that would answer is skipped only on a cancelled scan. |
| Checker.DomainScan.CheckLinks | dist/background.js:207-208 | The page's links come back in order, tagged with the page, with URL, text and type kept. The cache only gains entries, and only decided ones. An uncancelled call decides every link. |
| Checker.DomainScan.AddResults | dist/background.js:209-222 | the checked links join the results and the counters stay consistent with the state |
| Checker.DomainScan.RecordPage | dist/background.js:188-224 | It marks the tracking URL visited and checks the page's links, appending them tagged with the page. Every counter stays consistent with the state, and totalLinksChecked counts every result twice. |
| Checker.DomainScan.ScanPage | dist/background.js:93-250 | A cancelled scan, a visited URL or a depth past the limit does nothing. A reply without success, or one whose tracking key is already visited, appends no result and leaves the visited set as it was; the tab has still been opened and the clock has moved. Otherwise the reply's tracking key is recorded as visited, and the page's links, checked and tagged with the page, are appended to the results in order; at the depth limit they are the only new results. The visited set gains only the tracking keys of pages that replied with success. Past the guards the page's tab is opened; the guards open none; every other tab opened is for a URL of the origin. New results come from this page or, below the limit, from pages of the origin. The counters and cache invariants are kept. An error is a tab error or a rejected message. |
| Checker.DomainScan.VisitPage | dist/background.js:115-248 | The part of scanPage after the three guards: the same no-op for an unsuccessful reply or a visited tracking key, the same recording of a new tracking key with the page's checked links appended in order, the same tabs opened, the same provenance of new results and the same errors. |
| Checker.DomainScan.Crawl | dist/background.js:253 | `await scanPage(target, 0)` from the fresh state. Results were found on the target or, for a positive depth, on pages of the origin, and every visited key is the tracking key of a page that replied with success. Tabs are opened only for the target and for URLs of the origin, the target's always at a non-negative depth. Without a cancel, a target that replied with success is recorded and its checked links open the results, and at depth 0 they are all of the results. |
| Checker.DomainScan.FollowPage | dist/background.js:199-248 | For a reply whose tracking key is new, the key is marked visited. The page's links come back checked and tagged with the page, and open the new results in their order; at the depth limit they are all of the new results. Further tabs are opened only for URLs of the origin. |
| Checker.DomainScan.ScanLinks | dist/background.js:237-248 | When the loop ends without error and without a cancel, every checked link in the origin has been scanned, one level deeper, or was already visited. The visited set gains only tracking keys of pages that replied with success. Tabs are opened only for URLs that start with the origin, so a link of another origin is checked but never loaded as a page. Every new result was found on a page of the origin, and only below the depth limit. An error is a tab error or a rejected message. |
| Content.ShouldSkipLink | content.js:199-221 | defined by the two predicates HasSkippedPrefix and HasSkippedExtension; see the lemmas below |
| Content.ExtensionTestIgnoresCase | content.js:216-218 | the extension test gives the same answer on the lower-cased href |
| Content.SkipWithoutDot | content.js:199-221 | an href without a '.' is skipped iff it has one of the five prefixes |
| Content.PrefixTestIsCaseSensitive | content.js:207 | "mailto:team" is skipped; "Mailto:team" is not |
| Content.ExtensionIsLowerCase | content.js:216 | the extension list is in lower case |
| Content.ExtensionAnywhereIsSkipped | content.js:216-218 | an href with a download extension anywhere in it is skipped |
| Content.Or | content.js:107 | JavaScript `a \|\| b` on strings, as every pass's text fallback uses it: a, or b when a is empty |
| Content.TextOf | content.js:101-177 | the text each pass records; never empty for a non-empty URL; stylesheets and scripts use the last path segment |
| Content.Candidate | content.js:99-184 | an element gives a link exactly when its pass selects it and, for anchors and areas, its URL is not skipped; that link is an unchecked "found" link of the pass's type |
| Content.Candidates | content.js:99-184 | a pass gives at most one candidate per element |
| Content.CandidatesFrom | content.js:99-184 | every candidate of a pass comes from an element at or after its own position; it is unchecked, of the pass's type, and not skipped when the pass filters |
| Content.CandidatesHas | content.js:99-184 | every element a pass selects and does not skip yields a candidate, at a position no later than its own |
| Content.CandidatesSnoc | content.js:99-114 | one element more adds its candidate, if it has one, at the end |
| Content.KeysOfHas | content.js:92-104 | every URL of the list is in its URL set |
| Content.KeysOfWitness | content.js:92-104 | every URL in the set is the URL of some link of the list |
| Content.FirstByKey | content.js:103-113 | the `processedUrls` deduplication never lengthens the list; FirstByKeyUnique, FirstByKeyKeepsFirst, FirstByKeyKeepsOrder and FirstByKeyKeepsAll state what it keeps |
| Content.FirstIndex | content.js:103-104 | the first position with a given URL |
| Content.FirstByKeyUnique | content.js:92-174 | the processedUrls deduplication gives unique URLs, and the same set of URLs |
| Content.FirstByKeyKeepsFirst | content.js:103-104 | of the links sharing a URL only the first is kept |
| Content.FirstByKeyKeepsOrder | content.js:103-104 | the kept links keep the order of their first occurrences |
| Content.FirstByKeyKeepsAll | content.js:103-104 | every URL survives, carried by its first occurrence |
| Content.PassesFor | content.js:97-185 | anchors and areas always; the pages-only scan runs only filtered passes, and a full scan also runs the unfiltered ones |
| Content.Extracted | content.js:90-185 | the links the content script reports, before the position sort: the first link of each URL across the passes the scan runs; ExtractedShape, ExtractedFrom and ExtractedComplete state its properties |
| Content.ExtractedShape | content.js:90-197 | Every reported link is unchecked and not cached. Page links never carry a skipped URL. A pages-only scan reports only page links. |
| Content.ExtractedFrom | content.js:90-197 | every reported link comes from one of the passes the scan runs |
| Content.ExtractedComplete | content.js:90-197 | every URL a run pass selects and does not skip is reported |
| Content.CollectPass | content.js:99-114 | the forEach loop over one pass extends the deduplicated list and processedUrls exactly as the specification says |
| Content.DedupStep | content.js:103-113 | one element's step of the loop matches one more candidate in the specification: a new URL is appended and recorded, a repeated one changes nothing |
| Content.PassesCandidates | content.js:97-185 | the candidates of the scan are those of the anchor and area passes, followed, in a full scan, by those of the image, stylesheet and script passes |
| Content.ScanPage | content.js:90-197 | the method's links are the specification's extracted links, and the canonical URL is handed back |
| Content.ScanPagesOnlyOf | content.js:10 | pages-only unless the message's flag is exactly false |
| Popup.TruncateUrl | popup.js:281-284 | The result is at most 50 characters. Up to 50 the URL is unchanged; longer ones become the first 47 characters plus "...". |
| Popup.TruncateFixedPoints | popup.js:281-284 | unchanged exactly when at most 50 characters; shortening twice equals shortening once |
| Popup.TruncateForgetsTail | popup.js:281-284 | long URLs that agree on their first 47 characters are shown alike |
| Popup.StatusIcon | popup.js:272-279 | each of the three known statuses has its own icon; every other status gets the default one |
| Popup.IconsDistinct | popup.js:274-277 | the four icons differ |
| Popup.StatusIconSeparates | popup.js:272-279 | a known status's icon tells it apart from every other status |
| Popup.CheckButtonAsWritten | popup.js:116-136 | as written: a missing tab or url throws a TypeError; otherwise a disabled value is set |
| Popup.CheckButtonState | popup.js:116-136 | corrected: always sets the button; a missing tab or url disables it; otherwise as written |
| Popup.OrdinaryPageButton | popup.js:132-135 | Off the report page, the button is disabled iff the address is missing or empty, or starts with "chrome://" or "chrome-extension://". |
| Popup.ReportPageButton | popup.js:120-129 | On the report page, the button is disabled iff the address does not parse or has no non-empty target. |
| Popup.MissingUrlThrows | popup.js:120-133 | a tab without a url throws in the code as written; the corrected member disables the button |
| Popup.ValidateMaxDepth | popup.js:149-158 | Rejected iff the input does not parse as an integer or is negative, with the source's message. When accepted, the depth is the parsed value. |
| Popup.ValidateAcceptsDecimal | popup.js:149-158 | every depth written in decimal is accepted as itself, 0 included |
| Popup.ValidateRejects | popup.js:149-158 | an empty field and a negative digit are refused |
| Popup.ScanTarget | popup.js:160-174 | Off the report page the target is the tab's address. A different target is the report page's own non-empty target parameter. |
| Popup.ScanQueryOf | popup.js:160-177 | the query holds the scan target and the depth in decimal, which `parseInt` reads back as the depth; pagesonly is "true" or "false", and "false" iff not pages-only |
| Report.MaxDepthAsWritten | plugin-scan.js:11 | as written: never 0; a non-zero parsed value is kept; a missing, unparsable or zero value gives 2 |
| Report.MaxDepthParam | plugin-scan.js:11 | corrected: a parsed value is kept, 0 included; only a missing or unparsable value gives 2 |
| Report.ScanPagesOnlyParam | plugin-scan.js:12 | pages-only unless the parameter is exactly "false" |
| Report.OptionsOf | plugin-scan.js:7-17 | corrected: no scan iff the target is missing or empty; otherwise the target, the depth read with the corrected default (a parsed 0 stays 0), and the pages-only switch |
| Report.OptionsOfAsWritten | plugin-scan.js:7-17 | as written: the same, with the depth read by `parseInt(...) \|\| 2`, so a parsed 0 becomes 2 |
| Report.OptionsDifferOnlyAtZero | plugin-scan.js:11 | the written and the corrected options differ exactly when there is a target and the depth parameter parses to 0 |
| Report.DepthHandOffAsWritten | plugin-scan.js:11 | a depth n the popup sends in its query (popup.js line 177) arrives as n, except that 0 arrives as 2 |
| Report.DepthZeroBecomesTwo | plugin-scan.js:11 | "0" is accepted by the popup and sent as "0" (popup.js lines 153 and 177), then read back as 2 |
| Report.ScanOptionsHandOff | plugin-scan.js:7-17 | with the corrected default, the report page reads back exactly the target, depth and switch the popup chose at popup.js lines 149-177 |
| Report.Tally.constructor | plugin-scan.js:39-42 | all four counters start at zero |
| Report.Tally.UpdateLinkResult | plugin-scan.js:84-97 | A cached result counts as cached only. Any other result counts as checked, and also as working or broken by its status. The counters stay consistent, and exactly one of checked or cached grows by one. |
| Report.Tallied | plugin-scan.js:84-94 | one result adds one to exactly one of checked and cached, to cached iff the result is cached, and to working or broken at most when it adds to checked |
| Report.TallyFrom | plugin-scan.js:84-97 | a run of results adds its length to checked plus cached, and never adds more working and broken than checked |
| Report.Count | plugin-scan.js:116-120 | a filter count is at most the list's length |
| Report.CountSplit | plugin-scan.js:117-120 | cached plus fresh is every link; working and broken fresh ones are among the fresh |
| Report.TallyCounts | plugin-scan.js:84-97 | counting results one at a time adds the numbers of fresh, working-fresh, broken-fresh and cached links |
| Report.TallyMatchesSummary | plugin-scan.js:84-120 | the live counters fed one result per link agree with the final summary's counts |
| Report.DistinctKeys | plugin-scan.js:116 | the number of distinct URLs is at most the number of links, and equal iff the URLs are unique |
| Report.SummaryBounds | plugin-scan.js:116-120 | unique links ≤ links, equal iff URLs are unique; checked = fresh links; working + broken ≤ checked |
| Report.Summarize | plugin-scan.js:116-120 | the summary's five numbers; SummaryBounds, CountSplit and TallyMatchesSummary state their relations |
| Report.StrLessAsymmetric | plugin-scan.js:149-151 | the string order `<` is asymmetric and irreflexive |
| Report.StrLessTransitive | plugin-scan.js:149-151 | the string order is transitive |
| Report.StrLessTotal | plugin-scan.js:149-151 | the string order is total |
| Report.CompareConsistent | plugin-scan.js:148-162 | the comparator is negative iff (page, url) is less; zero iff equal keys; antisymmetric |
| Report.Compare | plugin-scan.js:148-152 | the comparator passed to `sort`; CompareConsistent states that it agrees with the (page, url) order |
| Report.KeyLessAsymmetric | plugin-scan.js:148-162 | the (page, url) order is a strict order: asymmetric |
| Report.KeyLessTransitive | plugin-scan.js:148-162 | transitive |
| Report.KeyLessTotal | plugin-scan.js:148-162 | total |
| Report.Insert | plugin-scan.js:148-162 | inserting adds exactly the element |
| Report.SortByKey | plugin-scan.js:148-162 | sorting is a permutation |
| Report.InsertSorted | plugin-scan.js:148-162 | inserting into a sorted list keeps it sorted |
| Report.SortedCons | plugin-scan.js:148-162 | an element no greater than any of a sorted list can go in front of it |
| Report.SortByKeySorted | plugin-scan.js:148-162 | the result of the sort is sorted by (page, url) |
| Report.InsertStable | plugin-scan.js:148-162 | inserting keeps the order of equal keys |
| Report.SortByKeyStable | plugin-scan.js:148-162 | the sort is stable, as `Array.prototype.sort` is required to be |
| Report.GroupOf | plugin-scan.js:148-158 | each filter keeps only links of its group |
| Report.GroupOfMultiplicity | plugin-scan.js:148-158 | each filter keeps every link of its group, as often as it occurs |
| Report.FinalOrder | plugin-scan.js:148-165 | `[...broken, ...workingChecked, ...workingCached]`, each group sorted; FinalOrderContents, FinalOrderGrouped and FinalOrderSortedInGroup state its properties |
| Report.FinalOrderContents | plugin-scan.js:148-165 | the sorted export list holds every checked link exactly as often as the input; unchecked ones are dropped |
| Report.GroupAt | plugin-scan.js:165 | the position of a link in the final list tells its group |
| Report.FinalOrderGrouped | plugin-scan.js:165 | broken links come first, then fresh working ones, then cached working ones |
| Report.FinalOrderSortedInGroup | plugin-scan.js:148-165 | within a group the list is sorted by (page, url) |
| Report.IndexOf | plugin-scan.js:249 | the first occurrence of a character |
| Report.SplitJoin | plugin-scan.js:239-249 | splitting lines joined on a character that none contains gives the lines back |
| Report.NotInJoin | plugin-scan.js:239-240 | joining does not introduce a character absent from the parts and the separator |
| Report.FieldsRoundTrip | plugin-scan.js:239 | a line of quoted fields without quotes or line breaks parses back to its fields |
| Report.LineHasNoBreak | plugin-scan.js:239 | such a line holds no line break, so the file's lines split where the rows end |
| Report.HeadersArePlain | plugin-scan.js:225 | the header fields hold no quotes and no line breaks |
| Report.CsvRow | plugin-scan.js:228-235 | each row has as many fields as the header |
| Report.CodeField | plugin-scan.js:233 | `link.statusCode \|\| 'N/A'`; CodeColumn states what it gives |
| Report.CsvLine | plugin-scan.js:239 | one row's fields, each quoted, joined with ','; FieldsRoundTrip and LineHasNoBreak state its properties |
| Report.CsvLines | plugin-scan.js:238-239 | one line per link plus the header line |
| Report.CsvContent | plugin-scan.js:238-240 | the lines joined with '\n'; CsvRoundTrip states that the text parses back to the header and the rows |
| Report.HeaderLineRoundTrip | plugin-scan.js:225-239 | the header line parses back to the header |
| Report.RowLineRoundTrip | plugin-scan.js:228-239 | a row of a link without quotes or line breaks in its URLs parses back |
| Report.LinesArePlain | plugin-scan.js:238-240 | every line of the file parses back to its row |
| Report.CsvRoundTrip | plugin-scan.js:225-240 | for links without quotes or line breaks in their URLs, the CSV text parses back to the header and one row per link, in order |
| Report.RowColumns | plugin-scan.js:228-235 | "Working" iff working (everything else shows "Broken"), the type name, page and URL, "Cache" iff cached |
| Report.CodeColumn | plugin-scan.js:233 | "N/A" iff no status code or code 0; a positive code reads back as itself |
| Report.ExportedStatus | plugin-scan.js:148-229 | in the exported order, the status column is "Broken" iff the link is broken |
| Report.Sanitize | plugin-scan.js:249 | every character other than an ASCII letter or digit becomes '-'; the length is kept |
| Report.SanitizeIdempotent | plugin-scan.js:249 | the result holds only letters, digits and '-', and sanitizing again changes nothing |
| Report.SanitizeKeeps | plugin-scan.js:249 | a target is unchanged iff it holds only letters, digits and '-' |
| Report.FileNameOf | plugin-scan.js:249 | the name is "link-scan-results-", the sanitized target, "-", the date part of the timestamp, then ".csv" |
| Report.FileName | plugin-scan.js:249 | the download name; FileNameOf and FileNameIsPlain state its shape |
| Report.FileNameIsPlain | plugin-scan.js:249 | for a plain date, the name holds only letters, digits, '-' and '.' |
| Report.ExportCsv | plugin-scan.js:218-249 | nothing is exported for an empty list; otherwise the file has the derived name and content that parses back to the rows |

## Left out

- Progress messages to the report tab, debug logging and console output. They do not change what is computed.
- The order in which the checks of one batch complete. The checks are settled in batch order after the batch's common cache snapshot. Two entries of one batch with the same URL and different outcomes therefore leave the later entry's outcome in the cache. The source may leave either.
- The 5-second fetch timeout, the 5-second tab-load timeout and the 200 ms delay between batches. They are suspensions of the scan, and the network oracle may answer a request with a throw.
- The network, the tabs (`chrome.tabs.create`, `sendMessage`, `remove`), `new URL(...)`, `Date.now()` and `new Date().toISOString()`. They are inputs to the model. The page the content script sees is a sequence of `Element` values. `getCanonicalUrl` is an input to `Content.ScanPage`.
- Content.ScanPage: the final sort by element position is not modelled. Links are reported in pass order, and the `element` and `position` fields are not kept.
- A second scan started while one runs. The model runs one scan per instance.
- A reply whose `links` field is missing. The model's reply always carries a list.
- The `isScanning` flag and the loading state of the popup's button. Neither affects what is computed.
- The crawl code before the `scanPage` closure that is never called, and the unused `sites403Prone` list.
- `performLinkChecking` called with no cache and no signal (`checkLinks`). The model covers the crawl's call, which always passes both.
- `encodeURIComponent` and the query parsing of `URLSearchParams`. Both are treated as the identity on the target.
- Popup.ScanQueryOf: `${scanPagesOnly}` is modelled for a boolean checkbox value only.
- The string order of the result sort must agree with JavaScript's string `<`. JavaScript compares UTF-16 code units and the model compares code points; the two agree on the Basic Multilingual Plane.
- Report.CsvRow: `link.type \|\| 'page'` always takes the link's own type. Every link the content script produces has a type.
- The `Blob`, the download anchor and `alert('No results to export')`. An export is modelled as the file name and content, or none.
- Strings.ParseInt: JavaScript's `parseInt` returns a double-precision number, so a digit run above 2^53 loses precision there; the model's integers are exact.
- Strings.NatToDecimal: `${n}` writes a number of 10^21 or more in exponent notation ("1e+21"); the model writes every n as plain digits.
- Strings.ParseIntOfDecimal: the round trip describes JavaScript only for n below 2^53, because of the two lines above. A crawl depth never comes near that bound.
- Popup.ValidateAcceptsDecimal: holds in JavaScript only for depths below 2^53, for the same reason.
- Report.ScanOptionsHandOff: holds in JavaScript only for depths below 2^53, for the same reason.
- Popup.TruncateUrl: the model counts characters, while `length` and `substring` count UTF-16 code units. The two agree on the Basic Multilingual Plane, and the URLs shortened are serialized URLs, which are ASCII.
- Report.Sanitize: `/[^a-zA-Z0-9]/g` without the `u` flag replaces each UTF-16 code unit, so a character outside the Basic Multilingual Plane becomes "--" in JavaScript and "-" in the model. The target is a serialized URL, which is ASCII.
- Strings.Lower: lower-casing is ASCII-only. `toLowerCase` also maps other letters, but no skipped extension contains one.
- Report.Summarize: `response.pagesScanned || 0` is modelled as an optional count.
- The results table's HTML and `escapeHtml`. Only the grouped, sorted list that the export uses is modelled.

## Findings

| source | as written | input that shows it | evidently intended | confidence | as-written member | corrected member |
|---|---|---|---|---|---|---|
| plugin-scan.js:11 | `parseInt(params.get('maxdepth')) \|\| 2` treats a parsed 0 as missing. A depth of 0 chosen in the popup (popup.js:153 accepts it) is replaced by 2. | maxdepth "0" | 2 only for a missing or unparsable parameter; 0 scans the target page alone | high (not executed) | Report.MaxDepthAsWritten, Report.OptionsOfAsWritten, Report.DepthZeroBecomesTwo | Report.MaxDepthParam, Report.OptionsOf, Report.ScanOptionsHandOff |
| popup.js:120 | `this.currentTab.url.includes(...)` runs before the guard `!this.currentTab \|\| !this.currentTab.url` at popup.js:133, so a tab without a url throws a TypeError | a tab whose url is undefined | the button is disabled for a missing tab or url | medium (not executed) | Popup.CheckButtonAsWritten, Popup.MissingUrlThrows | Popup.CheckButtonState, Popup.OrdinaryPageButton |
