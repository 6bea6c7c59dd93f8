/** The background worker's `LinkChecker` (dist/background.js) as a class:
    the scan's abort controller, `cancelCurrentScan`, `performLinkChecking`
    and the crawl of `scanAndCheckDomain`.

    The worker runs one task at a time; another task (the popup's cancel
    request) can only run while the scan waits at an `await`. The model
    counts those waits in `ticks` and handles the one cancel request at the
    wait numbered `cancelAt`, if any. The network, the tabs (open a page, ask
    its content script for its links), `Date.now()` and URL parsing are
    oracles fixed for the instance. */
module Checker {
  import opened Strings
  import opened Links
  import opened Fetch
  import opened Batches

  /** The part of `AbortController` the scan uses: its signal's flag. */
  class AbortController {
    var aborted: bool

    constructor()
      ensures !aborted
    {
      aborted := false;
    }

    method Abort()
      modifies this
      ensures aborted
    {
      aborted := true;
    }
  }

  /** The scan session's `linkCache` Map. */
  class LinkCache {
    var entries: Cache

    constructor()
      ensures entries == map[]
    {
      entries := map[];
    }
  }

  /** `{success, error}` as sent back to the popup. */
  datatype Reply = Reply(success: bool, error: Option<string>)

  /** What opening a page in a tab and sending it `{action: 'scanPage'}`
      gives: no tab, a rejected message, or the content script's reply. */
  datatype PageOutcome =
    | TabFailed
    | MessageFailed(message: string)
    | Replied(success: bool, canonicalUrl: Option<string>, links: seq<Link>)

  /** The response of `scanAndCheckDomain`. */
  datatype ScanResponse =
    | ScanDone(links: seq<Link>, pagesScanned: nat)
    | ScanError(error: string)

  /** The clock reading of the check of entry i, for a call that starts at
      wait t0: it is read when the checks of the entry's batch settle. */
  function Stamps(now: (nat, nat) -> int, t0: nat): nat -> int
  {
    (i: nat) => now(t0 + 2 * BatchOf(i) + 1, i)
  }

  /** check is `checkSingleLink` with the clock of wait t, for the entry
      indices lo .. hi - 1. */
  ghost predicate ChecksAt(check: Checker, net: Network, now: (nat, nat) -> int, t: nat, lo: nat, hi: nat)
  {
    forall l: Link, j {:trigger CheckSingleLink(l, net, now(t, j))} ::
      lo <= j < hi ==> check(l, j) == CheckSingleLink(l, net, now(t, j))
  }

  /** The entries of batch b, of a call that starts at wait t0, are checked
      with the clock of the wait after the batch's start, wait t0 + 2b. */
  ghost predicate ChecksBatch(check: Checker, net: Network, now: (nat, nat) -> int, t0: nat, b: nat)
  {
    ChecksAt(check, net, now, t0 + 2 * b + 1, BatchStart(b), BatchStart(b) + 10)
  }

  lemma StampsChecks(net: Network, now: (nat, nat) -> int, t0: nat)
    ensures forall b: nat :: ChecksBatch(Check(net, Stamps(now, t0)), net, now, t0, b)
  {
    forall b: nat
      ensures ChecksBatch(Check(net, Stamps(now, t0)), net, now, t0, b)
    {
      forall l: Link, j | BatchStart(b) <= j < BatchStart(b) + 10
        ensures Check(net, Stamps(now, t0))(l, j) == CheckSingleLink(l, net, now(t0 + 2 * b + 1, j))
      {
        BatchOfIn(b, j);
      }
    }
  }

  /** The waits of a call that ran k batches of n links: one for the checks
      of each batch and one for the pause after every batch but the last. */
  function Awaits(n: nat, k: nat): (w: nat)
    ensures w <= 2 * k
  {
    if k > 0 && n <= BatchStart(k) then 2 * k - 1 else 2 * k
  }

  /** A batch the loop enters is one of those BatchesRun counts, and the
      waits after it are one or two more. */
  lemma BatchLoopStep(a0: bool, t0: nat, cancelAt: Option<nat>, n: nat, b: nat)
    requires BatchStart(b) < n && b <= BatchesRun(a0, t0, cancelAt, n, 0)
    requires !CancelSeen(a0, t0, cancelAt, t0 + Awaits(n, b))
    ensures b < BatchesRun(a0, t0, cancelAt, n, 0)
    ensures Awaits(n, b + 1) == Awaits(n, b) + (if BatchStart(b) + 10 < n then 2 else 1)
  {
    assert !AbortSeen(a0, t0, cancelAt, b);
  }

  /** The loop leaves after exactly the batches BatchesRun counts. */
  lemma BatchLoopExit(a0: bool, t0: nat, cancelAt: Option<nat>, n: nat, b: nat)
    requires b <= BatchesRun(a0, t0, cancelAt, n, 0)
    requires n <= BatchStart(b) || CancelSeen(a0, t0, cancelAt, t0 + Awaits(n, b))
    ensures b == BatchesRun(a0, t0, cancelAt, n, 0)
  {
    assert BatchStart(b) < n ==> AbortSeen(a0, t0, cancelAt, b);
  }

  /** The batch loop stops before the end only when the flag is up, and
      then it is still up when the call returns. */
  lemma EarlyStopIsCancel(a0: bool, t0: nat, cancelAt: Option<nat>, n: nat)
    ensures var k := BatchesRun(a0, t0, cancelAt, n, 0);
      BatchStart(k) < n ==> CancelSeen(a0, t0, cancelAt, t0 + Awaits(n, k))
  {
  }

  /** Two windows of waits in a row see the cancel request exactly when the
      window spanning both does. */
  lemma CancelSeenTrans(a0: bool, t0: nat, t1: nat, t2: nat, cancelAt: Option<nat>)
    requires t0 <= t1 <= t2
    ensures CancelSeen(CancelSeen(a0, t0, cancelAt, t1), t1, cancelAt, t2) == CancelSeen(a0, t0, cancelAt, t2)
  {
  }

  /** Nothing c0 holds is lost or overwritten in c. */
  predicate Extends(c0: Cache, c: Cache)
  {
    forall u :: u in c0 ==> u in c && c[u] == c0[u]
  }

  /** The number of links whose URL starts with the origin. */
  function Internal(links: seq<Link>, origin: string): (n: nat)
    ensures n <= |links|
  {
    if links == [] then 0
    else Internal(links[..|links| - 1], origin) + (if StartsWith(links[|links| - 1].url, origin) then 1 else 0)
  }

  lemma {:induction false} InternalAppend(a: seq<Link>, b: seq<Link>, origin: string)
    ensures Internal(a + b, origin) == Internal(a, origin) + Internal(b, origin)
    decreases |b|
  {
    if b == [] {
      assert a + b == a;
    } else {
      assert (a + b)[..|a + b| - 1] == a + b[..|b| - 1];
      InternalAppend(a, b[..|b| - 1], origin);
    }
  }

  /** Every link is decided: working or broken. */
  predicate AllDecided(links: seq<Link>)
  {
    forall i :: 0 <= i < |links| ==> links[i].status != Unchecked
  }

  lemma DecidedAppend(a: seq<Link>, b: seq<Link>, both: bool)
    requires both ==> AllDecided(a) && AllDecided(b)
    ensures both ==> AllDecided(a + b)
  {
  }

  /** `(canonicalUrl || url)`: the URL a scanned page is tracked under. */
  function TrackingUrl(canonicalUrl: Option<string>, url: string): (t: string)
    ensures t == url || canonicalUrl == Some(t)
    ensures t == url <==> canonicalUrl.None? || canonicalUrl.value == "" || canonicalUrl.value == url
  {
    if canonicalUrl.Some? && canonicalUrl.value != "" then canonicalUrl.value else url
  }

  /** What the tab part of `scanPage` gives: an error that fails the whole
      scan, nothing to scan, or the page's canonical URL and links. */
  datatype Loaded =
    | LoadError(message: string)
    | Skipped
    | Loaded(canonicalUrl: Option<string>, links: seq<Link>)

  /** The page opened for u replied with success and is tracked under k. */
  predicate TrackedBy(pages: (string, bool) -> PageOutcome, scanPagesOnly: bool, u: string, k: string)
  {
    var o := pages(u, scanPagesOnly);
    o.Replied? && o.success && k == TrackingUrl(o.canonicalUrl, u)
  }

  /** c is l as the crawl reports it for the page it was found on: the
      same URL, text and type, tagged with that page. */
  predicate TaggedAs(c: Link, l: Link, page: string)
  {
    c.url == l.url && c.text == l.text && c.kind == l.kind && c.foundOnPage == page
  }

  /** k is the tracking URL of some page that replied with success. */
  ghost predicate Tracked(pages: (string, bool) -> PageOutcome, scanPagesOnly: bool, k: string)
  {
    exists u :: TrackedBy(pages, scanPagesOnly, u, k)
  }

  /** The content script's answer, once the tab is open. */
  function ReplyOf(outcome: PageOutcome): (r: Loaded)
    requires !outcome.TabFailed?
    ensures outcome.MessageFailed? <==> r.LoadError?
    ensures r.LoadError? ==> outcome == MessageFailed(r.message)
    ensures r.Loaded? <==> outcome.Replied? && outcome.success
    ensures r.Loaded? ==> r.canonicalUrl == outcome.canonicalUrl && r.links == outcome.links
  {
    match outcome
    case MessageFailed(m) => LoadError(m)
    case Replied(success, canonicalUrl, links) =>
      if success then Loaded(canonicalUrl, links) else Skipped
  }

  const TabError := "Failed to open tab"
  /** The message `new URL(target)` throws with for a malformed target. */
  const InvalidUrlError := "Failed to construct 'URL': Invalid URL"

  /** `results.forEach(link => link.foundOnPage = pageUrl)` on a copy of
      the links. */
  method TagLinks(links: seq<Link>, pageUrl: string) returns (results: seq<Link>)
    ensures results == TagPage(links, pageUrl)
  {
    results := links;
    var i := 0;
    while i < |results|
      invariant 0 <= i <= |results| == |links|
      invariant forall j :: 0 <= j < i ==> results[j] == links[j].(foundOnPage := pageUrl)
      invariant forall j :: i <= j < |results| ==> results[j] == links[j]
    {
      results := results[i := results[i].(foundOnPage := pageUrl)];
      i := i + 1;
    }
  }

  class LinkChecker {
    /** `this.currentScanController`: the running scan's controller. */
    var currentScanController: AbortController?
    /** The waits so far. */
    var ticks: nat
    /** The wait at which the popup's cancel request is handled, if ever. */
    const cancelAt: Option<nat>
    const net: Network
    /** `Date.now()` at a wait, for the entry index that reads it. */
    const now: (nat, nat) -> int
    /** The tab opened for a URL, asked with the scanPagesOnly flag. */
    const pages: (string, bool) -> PageOutcome
    /** `new URL(u).origin`, or None where the constructor throws. */
    const origins: string -> Option<string>

    constructor(cancelAt: Option<nat>, net: Network, now: (nat, nat) -> int,
                pages: (string, bool) -> PageOutcome, origins: string -> Option<string>)
      ensures currentScanController == null && ticks == 0
      ensures this.cancelAt == cancelAt && this.net == net && this.now == now
      ensures this.pages == pages && this.origins == origins
    {
      currentScanController := null;
      ticks := 0;
      this.cancelAt := cancelAt;
      this.net := net;
      this.now := now;
      this.pages := pages;
      this.origins := origins;
    }

    /** The scan holding `signal` is the current one until it is cancelled,
        and cancelling it is what clears the controller. */
    predicate Linked(signal: AbortController)
      reads this, signal
    {
      currentScanController == (if signal.aborted then null else signal)
    }

    /** `cancelCurrentScan`: aborts and forgets the current controller, or
        answers that there is none. */
    method CancelCurrentScan() returns (r: Reply)
      modifies this, currentScanController
      ensures currentScanController == null && ticks == old(ticks)
      ensures old(currentScanController) != null ==>
        r == Reply(true, None) && old(currentScanController).aborted
      ensures old(currentScanController) == null ==>
        r == Reply(false, Some("No active scan to cancel"))
    {
      if currentScanController != null {
        currentScanController.Abort();
        currentScanController := null;
        r := Reply(true, None);
      } else {
        r := Reply(false, Some("No active scan to cancel"));
      }
    }

    /** One `await`: other tasks may run, the cancel request among them. */
    method Suspend(signal: AbortController)
      requires Linked(signal)
      modifies this, signal
      ensures Linked(signal)
      ensures ticks == old(ticks) + 1
      ensures signal.aborted == (old(signal.aborted) || cancelAt == Some(ticks))
    {
      ticks := ticks + 1;
      if cancelAt == Some(ticks) {
        var reply := CancelCurrentScan();
      }
    }

    /** The first part of a batch, entries lo .. hi - 1, which runs before
        the batch waits: every cache lookup, a hit copying the stored
        outcome into its entry. */
    method LookUpBatch(results: seq<Link>, lo: nat, hi: nat, cache: LinkCache)
      returns (out: seq<Link>, hit: seq<bool>)
      requires lo <= hi <= |results|
      ensures |out| == |results| && |hit| == hi - lo
      ensures forall x :: lo <= x < hi ==> hit[x - lo] == (results[x].url in cache.entries)
      ensures forall x :: 0 <= x < |results| ==>
        out[x] == if lo <= x < hi && hit[x - lo] then FromCache(results[x], cache.entries[results[x].url]) else results[x]
    {
      out := results;
      hit := [];
      var j := lo;
      while j < hi
        invariant lo <= j <= hi && |hit| == j - lo && |out| == |results|
        invariant forall x :: lo <= x < j ==> hit[x - lo] == (results[x].url in cache.entries)
        invariant forall x :: 0 <= x < |results| ==>
          out[x] == if lo <= x < j && hit[x - lo] then FromCache(results[x], cache.entries[results[x].url]) else results[x]
      {
        var link := out[j];
        if link.url in cache.entries {
          out := out[j := FromCache(link, cache.entries[link.url])];
          hit := hit + [true];
        } else {
          hit := hit + [false];
        }
        j := j + 1;
      }
    }

    /** The settling of entry j of a batch (of results, against the
        snapshot): a miss is checked and its outcome stored, a hit keeps
        the copy the lookup made. */
    method SettleEntry(entry: Link, wasHit: bool, j: nat, cache: LinkCache, ghost results: seq<Link>,
                       ghost snapshot: Cache, ghost check: Checker, ghost t0: nat, ghost b: nat)
      returns (r: Link)
      requires BatchStart(b) <= j < BatchStart(b) + 10 && j < |results|
      requires wasHit == (results[j].url in snapshot)
      requires entry == if wasHit then FromCache(results[j], snapshot[results[j].url]) else results[j]
      requires ChecksBatch(check, net, now, t0, b) && ticks == t0 + 2 * b + 1
      requires cache.entries == BatchWrites(results, snapshot, BatchStart(b), j, check)
      modifies cache
      ensures r == ResolveEntry(results[j], snapshot, check, j)
      ensures cache.entries == BatchWrites(results, snapshot, BatchStart(b), j + 1, check)
    {
      BatchWritesStep(results, snapshot, BatchStart(b), j, check);
      if !wasHit {
        r := CheckSingleLink(entry, net, now(ticks, j));
        assert r == check(entry, j);
        cache.entries := cache.entries[r.url := Outcome(r)];
      } else {
        r := entry;
      }
    }

    /** One round of the settling loop: entry j settles and takes its place
        among the settled entries lo .. j. */
    method SettleNext(out: seq<Link>, results: seq<Link>, looked: seq<Link>, hit: seq<bool>, lo: nat, hi: nat,
                      j: nat, cache: LinkCache, ghost snapshot: Cache, ghost check: Checker, ghost t0: nat, ghost b: nat)
      returns (out': seq<Link>)
      requires lo <= j < hi <= |results| == |looked| == |out| && |hit| == hi - lo
      requires forall x :: lo <= x < hi ==> hit[x - lo] == (results[x].url in snapshot)
      requires forall x :: 0 <= x < |results| ==>
        looked[x] == if lo <= x < hi && hit[x - lo] then FromCache(results[x], snapshot[results[x].url]) else results[x]
      requires ChecksBatch(check, net, now, t0, b) && ticks == t0 + 2 * b + 1
      requires lo == BatchStart(b) && hi <= lo + 10
      requires cache.entries == BatchWrites(results, snapshot, lo, j, check)
      requires forall x :: 0 <= x < |results| ==>
        out[x] == if lo <= x < j then ResolveEntry(results[x], snapshot, check, x) else looked[x]
      modifies cache
      ensures |out'| == |results|
      ensures cache.entries == BatchWrites(results, snapshot, lo, j + 1, check)
      ensures forall x :: 0 <= x < |results| ==>
        out'[x] == if lo <= x < j + 1 then ResolveEntry(results[x], snapshot, check, x) else looked[x]
    {
      var r := SettleEntry(looked[j], hit[j - lo], j, cache, results, snapshot, check, t0, b);
      out' := out[j := r];
    }

    /** The second part of a batch, after its wait: the check of every miss
        settles and stores its outcome in the cache. */
    method SettleBatch(results: seq<Link>, looked: seq<Link>, hit: seq<bool>, lo: nat, hi: nat,
                       cache: LinkCache, ghost check: Checker, ghost t0: nat, ghost b: nat)
      returns (out: seq<Link>)
      requires lo <= hi <= |results| == |looked| && |hit| == hi - lo
      requires forall x :: lo <= x < hi ==> hit[x - lo] == (results[x].url in cache.entries)
      requires forall x :: 0 <= x < |results| ==>
        looked[x] == if lo <= x < hi && hit[x - lo] then FromCache(results[x], cache.entries[results[x].url]) else results[x]
      requires ChecksBatch(check, net, now, t0, b) && ticks == t0 + 2 * b + 1
      requires lo == BatchStart(b) && hi <= lo + 10
      modifies cache
      ensures BatchResolved(results, out, old(cache.entries), check, lo, hi)
      ensures cache.entries == BatchWrites(results, old(cache.entries), lo, hi, check)
    {
      ghost var snapshot := cache.entries;
      out := looked;
      var j := lo;
      while j < hi
        modifies cache
        invariant lo <= j <= hi && |out| == |results|
        invariant cache.entries == BatchWrites(results, snapshot, lo, j, check)
        invariant forall x :: 0 <= x < |results| ==>
          out[x] == if lo <= x < j then ResolveEntry(results[x], snapshot, check, x) else looked[x]
      {
        out := SettleNext(out, results, looked, hit, lo, hi, j, cache, snapshot, check, t0, b);
        j := j + 1;
      }
    }

    /** Batch b of `performLinkChecking`, entries lo .. hi - 1: every
        cache lookup runs before the batch waits, the checks of the misses
        settle after the wait, each storing its outcome; then, unless the
        batch is the last, the 200 ms pause. The flag reads as CancelSeen
        says, for the tick t0 at which the loop started with the flag a0. */
    method RunBatch(results: seq<Link>, lo: nat, hi: nat, cache: LinkCache, signal: AbortController,
                    ghost check: Checker, ghost a0: bool, ghost t0: nat, ghost b: nat)
      returns (out: seq<Link>)
      requires lo == BatchStart(b) < |results| && hi == Min(lo + 10, |results|)
      requires ChecksBatch(check, net, now, t0, b) && ticks == t0 + 2 * b
      requires Linked(signal) && signal.aborted == CancelSeen(a0, t0, cancelAt, ticks)
      modifies this, signal, cache
      ensures BatchResolved(results, out, old(cache.entries), check, lo, hi)
      ensures cache.entries == BatchWrites(results, old(cache.entries), lo, hi, check)
      ensures Linked(signal) && ticks == old(ticks) + (if hi < |results| then 2 else 1)
      ensures signal.aborted == CancelSeen(a0, t0, cancelAt, ticks)
    {
      var looked, hit := LookUpBatch(results, lo, hi, cache);
      CancelSeenStep(a0, t0, cancelAt, ticks);
      Suspend(signal);
      assert signal.aborted == CancelSeen(a0, t0, cancelAt, ticks);
      out := SettleBatch(results, looked, hit, lo, hi, cache, check, t0, b);
      if lo + 10 < |results| {
        CancelSeenStep(a0, t0, cancelAt, ticks);
        Suspend(signal);
        assert signal.aborted == CancelSeen(a0, t0, cancelAt, ticks);
      }
    }

    /** One round of the batch loop: batch b runs, and the loop state
        advances to the one after b + 1 batches. */
    method AdvanceBatch(tagged: seq<Link>, results: seq<Link>, i: nat, cache: LinkCache, signal: AbortController,
                        ghost check: Checker, ghost a0: bool, ghost t0: nat, ghost c0: Cache, ghost b: nat)
      returns (out: seq<Link>)
      requires |results| == |tagged| && i == BatchStart(b) < |results|
      requires b <= BatchesRun(a0, t0, cancelAt, |tagged|, 0)
      requires ChecksBatch(check, net, now, t0, b)
      requires Linked(signal) && !signal.aborted && ticks == t0 + Awaits(|tagged|, b)
      requires signal.aborted == CancelSeen(a0, t0, cancelAt, ticks)
      requires Progress(tagged, c0, check, b, results, cache.entries)
      modifies this, signal, cache
      ensures |out| == |tagged| && b + 1 <= BatchesRun(a0, t0, cancelAt, |tagged|, 0)
      ensures Linked(signal) && ticks == t0 + Awaits(|tagged|, b + 1)
      ensures signal.aborted == CancelSeen(a0, t0, cancelAt, ticks)
      ensures Progress(tagged, c0, check, b + 1, out, cache.entries)
    {
      BatchLoopStep(a0, t0, cancelAt, |tagged|, b);
      var hi := Min(i + 10, |results|);
      ghost var snapshot := cache.entries;
      out := RunBatch(results, i, hi, cache, signal, check, a0, t0, b);
      BatchAdvance(tagged, c0, check, b, results, snapshot, i, hi, out, cache.entries);
    }

    /** The batch loop of `performLinkChecking`, over links already tagged
        with their page, for a check that reads the clock per batch. */
    method CheckBatches(tagged: seq<Link>, cache: LinkCache, signal: AbortController, ghost check: Checker)
      returns (results: seq<Link>)
      requires Linked(signal)
      requires forall b: nat :: ChecksBatch(check, net, now, ticks, b)
      modifies this, signal, cache
      ensures Linked(signal)
      ensures var k := BatchesRun(old(signal.aborted), old(ticks), cancelAt, |tagged|, 0);
        && results == LinksAfter(tagged, old(cache.entries), check, k)
        && cache.entries == CacheAfter(tagged, old(cache.entries), check, k)
        && ticks == old(ticks) + Awaits(|tagged|, k)
      ensures signal.aborted == CancelSeen(old(signal.aborted), old(ticks), cancelAt, ticks)
    {
      results := tagged;
      ghost var t0 := ticks;
      ghost var a0 := signal.aborted;
      ghost var c0 := cache.entries;
      ghost var n := |tagged|;
      ghost var k := BatchesRun(a0, t0, cancelAt, n, 0);
      var i := 0;
      ghost var b: nat := 0;
      while i < |results| && !signal.aborted
        invariant |results| == n && i == BatchStart(b) && b <= k
        invariant Linked(signal)
        invariant ticks == t0 + Awaits(n, b)
        invariant signal.aborted == CancelSeen(a0, t0, cancelAt, ticks)
        invariant Progress(tagged, c0, check, b, results, cache.entries)
        decreases n - i
      {
        results := AdvanceBatch(tagged, results, i, cache, signal, check, a0, t0, c0, b);
        i := i + 10;
        b := b + 1;
      }
      BatchLoopExit(a0, t0, cancelAt, n, b);
    }

    /** `performLinkChecking(links, …, pageUrl, …, linkCache, abortSignal)`
        as the scan calls it. */
    method PerformLinkChecking(links: seq<Link>, pageUrl: string, cache: LinkCache, signal: AbortController)
      returns (results: seq<Link>)
      requires Linked(signal)
      modifies this, signal, cache
      ensures Linked(signal)
      ensures var check := Check(net, Stamps(now, old(ticks)));
        var k := BatchesRun(old(signal.aborted), old(ticks), cancelAt, |links|, 0);
        && results == LinksAfter(TagPage(links, pageUrl), old(cache.entries), check, k)
        && cache.entries == CacheAfter(TagPage(links, pageUrl), old(cache.entries), check, k)
        && ticks == old(ticks) + Awaits(|links|, k)
      ensures signal.aborted == CancelSeen(old(signal.aborted), old(ticks), cancelAt, ticks)
      // the same links, in the same order, tagged with the page
      ensures |results| == |links|
      ensures forall i :: 0 <= i < |links| ==>
        results[i].url == links[i].url && results[i].text == links[i].text &&
        results[i].kind == links[i].kind && results[i].foundOnPage == pageUrl
      // the cache only gains entries, all of them decided
      ensures Extends(old(cache.entries), cache.entries)
      ensures CacheResolved(old(cache.entries)) ==> CacheResolved(cache.entries)
      // a call that is not cancelled decides every link
      ensures CacheResolved(old(cache.entries)) && !signal.aborted ==> AllDecided(results)
    {
      ghost var t0, a0, c0 := ticks, signal.aborted, cache.entries;
      ghost var stamp := Stamps(now, t0);
      var tagged := TagLinks(links, pageUrl);
      StampsChecks(net, now, ticks);
      results := CheckBatches(tagged, cache, signal, Check(net, Stamps(now, ticks)));
      ghost var k := BatchesRun(a0, t0, cancelAt, |links|, 0);
      ResultsKeepLinks(links, pageUrl, c0, net, stamp, k);
      forall u | u in c0
        ensures u in cache.entries && cache.entries[u] == c0[u]
      {
        CacheAfterGrows(tagged, c0, Check(net, stamp), 0, k, u);
      }
      if CacheResolved(c0) {
        CheckDecides(net, stamp);
        CacheAfterResolved(tagged, c0, Check(net, stamp), k);
        if !signal.aborted {
          EarlyStopIsCancel(a0, t0, cancelAt, |links|);
          ProcessedAreDecided(links, pageUrl, c0, net, stamp, k);
        }
      }
    }

    /** `scanAndCheckDomain(target, …, maxDepth, scanPagesOnly)`: a crawl of
        the target's origin from the target, maxDepth pages deep, with a
        fresh controller and a fresh session cache. */
    method ScanAndCheckDomain(target: string, maxDepth: Option<int>, scanPagesOnly: bool)
      returns (resp: ScanResponse, ghost keys: set<string>, ghost tabs: set<string>)
      modifies this
      ensures currentScanController == null
      // the pages counted are the distinct tracking URLs of pages that
      // replied with success
      ensures resp.ScanDone? ==>
        resp.pagesScanned == |keys| && forall k :: k in keys ==> Tracked(pages, scanPagesOnly, k)
      // the target itself is recorded when it replied with success and no
      // cancel request reached the scan
      ensures && resp.ScanDone? && !CancelSeen(false, old(ticks), cancelAt, ticks)
              && (maxDepth.None? || maxDepth.value >= 0)
              && pages(target, scanPagesOnly).Replied? && pages(target, scanPagesOnly).success ==>
        TrackingUrl(pages(target, scanPagesOnly).canonicalUrl, target) in keys
      // the target's checked links, tagged with the target, open the
      // response; at depth 0 (the default) they are the whole response
      ensures var o := pages(target, scanPagesOnly);
        && resp.ScanDone? && !CancelSeen(false, old(ticks), cancelAt, ticks)
        && (maxDepth.None? || maxDepth.value >= 0) && o.Replied? && o.success ==>
          && |o.links| <= |resp.links|
          && (forall i :: 0 <= i < |o.links| ==> TaggedAs(resp.links[i], o.links[i], target))
          && (maxDepth.None? || maxDepth.value == 0 ==> |resp.links| == |o.links|)
      // tabs are opened for the target and for pages of its origin only,
      // the target's first of all
      ensures origins(target).Some? ==>
        forall u :: u in tabs ==> u == target || StartsWith(u, origins(target).value)
      ensures origins(target).Some? && (maxDepth.None? || maxDepth.value >= 0) ==> target in tabs
      ensures origins(target).None? ==> resp == ScanError(InvalidUrlError) && tabs == {}
      // every link was found on the target or on a page of its origin
      ensures resp.ScanDone? ==>
        && origins(target).Some?
        && forall i :: 0 <= i < |resp.links| ==>
             resp.links[i].foundOnPage == target || StartsWith(resp.links[i].foundOnPage, origins(target).value)
      // at depth 0 (the default) only the target is scanned
      ensures resp.ScanDone? && (maxDepth.None? || maxDepth.value <= 0) ==>
        forall i :: 0 <= i < |resp.links| ==> resp.links[i].foundOnPage == target
      // a scan that no cancel request reached decides every link
      ensures resp.ScanDone? && !CancelSeen(false, old(ticks), cancelAt, ticks) ==> AllDecided(resp.links)
      // an error is the invalid target, a tab that did not open, or a
      // page's rejected message
      ensures resp.ScanError? ==>
        resp.error == InvalidUrlError || resp.error == TabError ||
        exists u :: pages(u, scanPagesOnly) == MessageFailed(resp.error)
    {
      var controller := new AbortController();
      currentScanController := controller;
      keys, tabs := {}, {};
      match origins(target)
      case None =>
        currentScanController := null;
        resp := ScanError(InvalidUrlError);
      case Some(origin) =>
        var scanDepth := if maxDepth.Some? then maxDepth.value else 0;
        var cache := new LinkCache();
        var scan := new DomainScan(this, controller, cache, target, origin, scanDepth, scanPagesOnly);
        var err := scan.Crawl();
        keys, tabs := scan.visited, scan.openedTabs;
        currentScanController := null;
        match err
        case Some(e) => resp := ScanError(e);
        case None => resp := ScanDone(scan.results, scan.pagesScanned);
    }
  }

  /** The state `scanAndCheckDomain` keeps for its `scanPage` closure: the
      visited set, the results and the progress counters. */
  class DomainScan {
    const checker: LinkChecker
    const signal: AbortController
    const cache: LinkCache
    const target: string
    const origin: string
    const scanDepth: int
    const scanPagesOnly: bool
    var visited: set<string>
    var results: seq<Link>
    var totalPagesToScan: nat
    var pagesScanned: nat
    var totalLinksFound: nat
    var totalLinksChecked: nat
    /** The URLs `scanPage` has been called on. */
    ghost var requested: set<string>
    /** The URLs a tab has been opened for. */
    ghost var openedTabs: set<string>

    constructor(checker: LinkChecker, signal: AbortController, cache: LinkCache, target: string,
                origin: string, scanDepth: int, scanPagesOnly: bool)
      requires checker.Linked(signal) && cache.entries == map[]
      ensures Valid() && visited == {} && results == [] && requested == {} && openedTabs == {}
      ensures this.checker == checker && this.signal == signal && this.cache == cache
      ensures this.target == target && this.origin == origin
      ensures this.scanDepth == scanDepth && this.scanPagesOnly == scanPagesOnly
    {
      this.checker := checker;
      this.signal := signal;
      this.cache := cache;
      this.target := target;
      this.origin := origin;
      this.scanDepth := scanDepth;
      this.scanPagesOnly := scanPagesOnly;
      visited := {};
      results := [];
      requested := {};
      openedTabs := {};
      totalPagesToScan := 1;
      pagesScanned := 0;
      totalLinksFound := 0;
      totalLinksChecked := 0;
    }

    /** The counters agree with the results (each checked link is counted
        twice in totalLinksChecked, as the source adds it twice), every
        cached outcome is decided, and so is every result until the scan
        is cancelled. */
    predicate Valid()
      reads this, checker, signal, cache
    {
      checker.Linked(signal) &&
      CacheResolved(cache.entries) &&
      pagesScanned == |visited| &&
      totalLinksFound == |results| &&
      totalLinksChecked == 2 * |results| &&
      totalPagesToScan == 1 + Internal(results, origin) &&
      (!signal.aborted ==> AllDecided(results))
    }

    /** The scan's state changed only as the scan itself may change it,
        from before: results and visited grow, the cache keeps what it had,
        the waits go on, the tabs opened stay opened, and the flag goes up only by a cancel request
        handled meanwhile. */
    twostate predicate Advanced()
      reads this, checker, signal, cache
    {
      old(results) <= results && old(visited) <= visited && old(requested) <= requested &&
      old(openedTabs) <= openedTabs &&
      old(checker.ticks) <= checker.ticks &&
      Extends(old(cache.entries), cache.entries) &&
      signal.aborted == CancelSeen(old(signal.aborted), old(checker.ticks), checker.cancelAt, checker.ticks)
    }

    /** The tab part of `scanPage(url, …)`: open the page in a tab, wait
        for it to load and ask its content script for its links. A tab that
        does not open and a rejected message are errors; a scan cancelled
        during the load and an unsuccessful reply give no links. */
    method LoadPage(url: string) returns (r: Loaded)
      requires checker.Linked(signal)
      modifies checker, signal, this`openedTabs
      ensures openedTabs == old(openedTabs) + {url}
      ensures checker.Linked(signal) && old(checker.ticks) < checker.ticks
      ensures signal.aborted == CancelSeen(old(signal.aborted), old(checker.ticks), checker.cancelAt, checker.ticks)
      ensures checker.pages(url, scanPagesOnly) == TabFailed ==> r == LoadError(TabError)
      ensures checker.pages(url, scanPagesOnly) != TabFailed ==>
        r == Skipped || r == ReplyOf(checker.pages(url, scanPagesOnly))
      // a page that answers is skipped only on a cancelled scan
      ensures r == Skipped && ReplyOf(checker.pages(url, scanPagesOnly)) != Skipped ==> signal.aborted
    {
      var outcome := checker.pages(url, scanPagesOnly);
      openedTabs := openedTabs + {url};
      // chrome.tabs.create answers in a callback
      checker.Suspend(signal);
      if outcome.TabFailed? {
        return LoadError(TabError);
      }
      // the load wait resolves at once on a cancelled scan
      if !signal.aborted {
        CancelSeenStep(old(signal.aborted), old(checker.ticks), checker.cancelAt, checker.ticks);
        checker.Suspend(signal);
      }
      if signal.aborted {
        return Skipped;
      }
      // chrome.tabs.sendMessage
      CancelSeenStep(old(signal.aborted), old(checker.ticks), checker.cancelAt, checker.ticks);
      checker.Suspend(signal);
      r := ReplyOf(outcome);
    }

    /** The call of `performLinkChecking` from `scanPage`, with the session
        cache and the scan's signal, as the scan's bookkeeping sees it:
        the links come back in order, tagged with the page, the cache keeps
        and adds decided outcomes, and an uncancelled call decides every
        link. */
    method CheckLinks(url: string, links: seq<Link>) returns (checked: seq<Link>)
      requires checker.Linked(signal)
      modifies checker, signal, cache
      ensures checker.Linked(signal) && old(checker.ticks) <= checker.ticks
      ensures signal.aborted == CancelSeen(old(signal.aborted), old(checker.ticks), checker.cancelAt, checker.ticks)
      ensures |checked| == |links|
      ensures forall i :: 0 <= i < |links| ==>
        checked[i].url == links[i].url && checked[i].text == links[i].text &&
        checked[i].kind == links[i].kind && checked[i].foundOnPage == url
      ensures Extends(old(cache.entries), cache.entries)
      ensures CacheResolved(old(cache.entries)) ==> CacheResolved(cache.entries)
      ensures CacheResolved(old(cache.entries)) && !signal.aborted ==> AllDecided(checked)
    {
      checked := checker.PerformLinkChecking(links, url, cache, signal);
    }

    /** The bookkeeping of `scanPage` for a page tracked under trackingUrl:
        mark it visited, count its links, check them and add them to the
        results. */
    method RecordPage(url: string, trackingUrl: string, links: seq<Link>) returns (checked: seq<Link>)
      requires Valid() && trackingUrl !in visited
      modifies this, checker, signal, cache
      ensures Valid() && Advanced()
      ensures visited == old(visited) + {trackingUrl} && results == old(results) + checked
      ensures requested == old(requested) && openedTabs == old(openedTabs)
      ensures |checked| == |links|
      ensures forall i :: 0 <= i < |links| ==>
        checked[i].url == links[i].url && checked[i].text == links[i].text &&
        checked[i].kind == links[i].kind && checked[i].foundOnPage == url
    {
      visited := visited + {trackingUrl};
      totalLinksFound := totalLinksFound + |links|;
      checked := CheckLinks(url, links);
      DecidedAppend(results, checked, !signal.aborted);
      AddResults(checked);
    }

    /** The rest of the bookkeeping, once the links of the page are
        checked: they join the results, are counted as checked (twice) and
        their internal links as pages to scan, and the page as scanned. */
    method AddResults(checked: seq<Link>)
      requires checker.Linked(signal) && CacheResolved(cache.entries)
      requires pagesScanned + 1 == |visited| && totalLinksFound == |results| + |checked|
      requires totalLinksChecked == 2 * |results| && totalPagesToScan == 1 + Internal(results, origin)
      requires !signal.aborted ==> AllDecided(results + checked)
      modifies this
      ensures Valid() && results == old(results) + checked && visited == old(visited)
      ensures requested == old(requested) && openedTabs == old(openedTabs)
    {
      InternalAppend(results, checked, origin);
      results := results + checked;
      totalLinksChecked := totalLinksChecked + |checked|;
      totalLinksChecked := totalLinksChecked + |checked|;
      totalPagesToScan := totalPagesToScan + Internal(checked, origin);
      pagesScanned := pagesScanned + 1;
    }

    /** `await scanPage(target, 0)` from the fresh state: what the crawl
        as a whole gives. */
    method Crawl() returns (err: Option<string>)
      requires Valid() && !signal.aborted && visited == {} && results == [] && openedTabs == {}
      modifies this, checker, signal, cache
      ensures Valid() && Advanced()
      ensures forall i :: 0 <= i < |results| ==>
        results[i].foundOnPage == target || (0 < scanDepth && StartsWith(results[i].foundOnPage, origin))
      ensures err.Some? ==>
        err.value == TabError || exists u :: checker.pages(u, scanPagesOnly) == MessageFailed(err.value)
      ensures forall k :: k in visited ==> Tracked(checker.pages, scanPagesOnly, k)
      ensures forall u :: u in openedTabs ==> u == target || StartsWith(u, origin)
      ensures 0 <= scanDepth ==> target in openedTabs
      // unless the scan is cancelled, a target that replied with success is
      // recorded, and its checked links open the results
      ensures var o := checker.pages(target, scanPagesOnly);
        !signal.aborted && 0 <= scanDepth && o.Replied? && o.success ==>
          && TrackingUrl(o.canonicalUrl, target) in visited
          && |o.links| <= |results|
          && (forall i :: 0 <= i < |o.links| ==> TaggedAs(results[i], o.links[i], target))
          && (scanDepth == 0 ==> |results| == |o.links|)
    {
      err := ScanPage(target, 0);
      ghost var o := checker.pages(target, scanPagesOnly);
      if !signal.aborted && 0 <= scanDepth && o.Replied? && o.success {
        forall i | 0 <= i < |o.links|
          ensures TaggedAs(results[i], o.links[i], target)
        {
          assert results[i] == results[|old(results)| + i];
        }
      }
    }

    /** `scanPage(url, depth)`. */
    method ScanPage(url: string, depth: int) returns (err: Option<string>)
      requires Valid() && 0 <= depth
      modifies this, checker, signal, cache
      decreases scanDepth + 1 - depth, 3
      ensures Valid() && Advanced()
      // a cancelled scan, a visited URL or a page past the depth: no-op
      ensures old(signal.aborted) || url in old(visited) || depth > scanDepth ==>
        err == None && results == old(results) && visited == old(visited) &&
        openedTabs == old(openedTabs) && checker.ticks == old(checker.ticks)
      // tabs are opened only for this page and for pages of the origin
      ensures forall u :: u in openedTabs && u !in old(openedTabs) ==> u == url || StartsWith(u, origin)
      // past the guard the page's tab is opened
      ensures !old(signal.aborted) && url !in old(visited) && depth <= scanDepth ==> url in openedTabs
      // each new result was found on this page or, below the depth limit,
      // on a page of the origin
      ensures forall i :: |old(results)| <= i < |results| ==>
        results[i].foundOnPage == url || (depth < scanDepth && StartsWith(results[i].foundOnPage, origin))
      ensures err.Some? ==>
        err.value == TabError || exists u :: checker.pages(u, scanPagesOnly) == MessageFailed(err.value)
      ensures url in requested
      // every URL the scan starts tracking is the tracking URL of a page
      // that replied with success
      ensures forall k :: k in visited && k !in old(visited) ==> Tracked(checker.pages, scanPagesOnly, k)
      // a page past the guard whose reply is unsuccessful, or whose tracking
      // URL was visited already, adds nothing, although its tab is opened
      // again
      ensures && !old(signal.aborted) && url !in old(visited) && depth <= scanDepth
              && checker.pages(url, scanPagesOnly).Replied?
              && (!checker.pages(url, scanPagesOnly).success ||
                  TrackingUrl(checker.pages(url, scanPagesOnly).canonicalUrl, url) in old(visited)) ==>
        err == None && results == old(results) && visited == old(visited) && old(checker.ticks) < checker.ticks
      // a page past the guard that replied with success under a new tracking
      // URL is recorded under it, unless the scan was cancelled meanwhile
      ensures && !old(signal.aborted) && url !in old(visited) && depth <= scanDepth
              && checker.pages(url, scanPagesOnly).Replied? && checker.pages(url, scanPagesOnly).success
              && TrackingUrl(checker.pages(url, scanPagesOnly).canonicalUrl, url) !in old(visited)
              && !signal.aborted ==>
        TrackingUrl(checker.pages(url, scanPagesOnly).canonicalUrl, url) in visited
      // a page recorded under a new tracking URL has its checked links
      // appended to the results, in order; at the depth limit they are the
      // only new results
      ensures var o := checker.pages(url, scanPagesOnly);
        o.Replied? && o.success && TrackingUrl(o.canonicalUrl, url) in visited - old(visited) ==>
          && |old(results)| + |o.links| <= |results|
          && (forall i :: 0 <= i < |o.links| ==> TaggedAs(results[|old(results)| + i], o.links[i], url))
          && (depth == scanDepth ==> |results| == |old(results)| + |o.links|)
    {
      requested := requested + {url};
      if signal.aborted || url in visited || depth > scanDepth {
        return None;
      }
      err := VisitPage(url, depth);
    }

    /** The part of `scanPage(url, depth)` past its guard: load the page,
        skip it when its tracking URL was visited, otherwise record it and
        scan its links. */
    method VisitPage(url: string, depth: int) returns (err: Option<string>)
      requires Valid() && 0 <= depth <= scanDepth
      modifies this, checker, signal, cache
      decreases scanDepth + 1 - depth, 2
      ensures Valid() && Advanced()
      ensures url in openedTabs && forall u :: u in openedTabs && u !in old(openedTabs) ==> u == url || StartsWith(u, origin)
      ensures forall i :: |old(results)| <= i < |results| ==>
        results[i].foundOnPage == url || (depth < scanDepth && StartsWith(results[i].foundOnPage, origin))
      ensures err.Some? ==>
        err.value == TabError || exists u :: checker.pages(u, scanPagesOnly) == MessageFailed(err.value)
      ensures forall k :: k in visited && k !in old(visited) ==> Tracked(checker.pages, scanPagesOnly, k)
      ensures && checker.pages(url, scanPagesOnly).Replied?
              && (!checker.pages(url, scanPagesOnly).success ||
                  TrackingUrl(checker.pages(url, scanPagesOnly).canonicalUrl, url) in old(visited)) ==>
        err == None && results == old(results) && visited == old(visited) && old(checker.ticks) < checker.ticks
      ensures && checker.pages(url, scanPagesOnly).Replied? && checker.pages(url, scanPagesOnly).success
              && TrackingUrl(checker.pages(url, scanPagesOnly).canonicalUrl, url) !in old(visited)
              && !signal.aborted ==>
        TrackingUrl(checker.pages(url, scanPagesOnly).canonicalUrl, url) in visited
      // a page recorded under a new tracking URL has its checked links
      // appended to the results, in order; at the depth limit they are the
      // only new results
      ensures var o := checker.pages(url, scanPagesOnly);
        o.Replied? && o.success && TrackingUrl(o.canonicalUrl, url) in visited - old(visited) ==>
          && |old(results)| + |o.links| <= |results|
          && (forall i :: 0 <= i < |o.links| ==> TaggedAs(results[|old(results)| + i], o.links[i], url))
          && (depth == scanDepth ==> |results| == |old(results)| + |o.links|)
    {
      ghost var o := checker.pages(url, scanPagesOnly);
      var loaded := LoadPage(url);
      if loaded.LoadError? {
        return Some(loaded.message);
      }
      if loaded.Skipped? {
        return None;
      }
      assert o.Replied? && o.success && loaded.canonicalUrl == o.canonicalUrl && loaded.links == o.links;
      var trackingUrl := TrackingUrl(loaded.canonicalUrl, url);
      if trackingUrl in visited {
        return None;
      }
      assert TrackedBy(checker.pages, scanPagesOnly, url, trackingUrl);
      err := FollowPage(url, depth, trackingUrl, loaded.links);
    }

    /** The part of `scanPage(url, depth)` once the page's reply is in and
        its tracking URL is new: record the page, check its links and scan
        those of the origin. */
    method FollowPage(url: string, depth: int, trackingUrl: string, links: seq<Link>) returns (err: Option<string>)
      requires Valid() && 0 <= depth <= scanDepth && trackingUrl !in visited
      modifies this, checker, signal, cache
      decreases scanDepth + 1 - depth, 1
      ensures Valid() && Advanced()
      ensures forall u :: u in openedTabs && u !in old(openedTabs) ==> StartsWith(u, origin)
      ensures forall i :: |old(results)| <= i < |results| ==>
        results[i].foundOnPage == url || (depth < scanDepth && StartsWith(results[i].foundOnPage, origin))
      ensures err.Some? ==>
        err.value == TabError || exists u :: checker.pages(u, scanPagesOnly) == MessageFailed(err.value)
      ensures trackingUrl in visited
      ensures forall k :: k in visited && k !in old(visited) && k != trackingUrl ==> Tracked(checker.pages, scanPagesOnly, k)
      // the page's checked links open the new results, in order; at the
      // depth limit they are all of them
      ensures |old(results)| + |links| <= |results|
      ensures forall i :: 0 <= i < |links| ==> TaggedAs(results[|old(results)| + i], links[i], url)
      ensures depth == scanDepth ==> |results| == |old(results)| + |links|
    {
      var checked := RecordPage(url, trackingUrl, links);
      ghost var recorded := results;
      err := ScanLinks(depth, checked);
      assert recorded <= results;
      forall i | 0 <= i < |links|
        ensures TaggedAs(results[|old(results)| + i], links[i], url)
      {
        assert results[|old(results)| + i] == recorded[|old(results)| + i] == checked[i];
      }
      assert depth == scanDepth ==> |results| == |recorded|;
    }

    /** The recursion of `scanPage(url, depth)` over the links checked on
        the page: each link of the origin not yet visited is scanned one
        level deeper, until the scan is cancelled or a page fails. */
    method ScanLinks(depth: int, checked: seq<Link>) returns (err: Option<string>)
      requires Valid() && 0 <= depth <= scanDepth
      modifies this, checker, signal, cache
      decreases scanDepth + 1 - depth, 0
      ensures Valid() && Advanced()
      // tabs are opened only for pages of the origin
      ensures forall u :: u in openedTabs && u !in old(openedTabs) ==> StartsWith(u, origin)
      // every new result was found on a page of the origin, one level down
      ensures forall i :: |old(results)| <= i < |results| ==>
        depth < scanDepth && StartsWith(results[i].foundOnPage, origin)
      ensures err.Some? ==>
        err.value == TabError || exists u :: checker.pages(u, scanPagesOnly) == MessageFailed(err.value)
      ensures forall k :: k in visited && k !in old(visited) ==> Tracked(checker.pages, scanPagesOnly, k)
      // unless the scan is cancelled or a page fails, every link of the
      // origin was visited already or is scanned
      ensures err.None? && !signal.aborted ==>
        forall j :: 0 <= j < |checked| && StartsWith(checked[j].url, origin) ==>
          checked[j].url in visited || checked[j].url in requested
    {
      var i := 0;
      while i < |checked|
        invariant 0 <= i <= |checked|
        invariant Valid() && Advanced()
        invariant forall u :: u in openedTabs && u !in old(openedTabs) ==> StartsWith(u, origin)
        invariant forall j :: |old(results)| <= j < |results| ==>
          depth < scanDepth && StartsWith(results[j].foundOnPage, origin)
        invariant forall k :: k in visited && k !in old(visited) ==> Tracked(checker.pages, scanPagesOnly, k)
        invariant forall j :: 0 <= j < i && StartsWith(checked[j].url, origin) ==>
          checked[j].url in visited || checked[j].url in requested
      {
        if signal.aborted {
          return None;
        }
        var link := checked[i];
        if StartsWith(link.url, origin) && link.url !in visited {
          err := ScanPage(link.url, depth + 1);
          if err.Some? {
            return err;
          }
        }
        i := i + 1;
      }
      return None;
    }
  }
}
