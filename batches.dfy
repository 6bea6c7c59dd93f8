/** What `performLinkChecking` (dist/background.js) computes, as functions
    of its inputs: the links are cut into batches of ten; every cache
    lookup of a batch runs before any of its checks settles, so a batch
    sees the session cache as it stood when the batch started; each entry
    is served from that snapshot or checked, and the outcomes of the checked
    entries are stored in the cache as the checks settle. */
module Batches {
  import opened Strings
  import opened Links
  import opened Fetch

  /** The session cache: exact URL to stored outcome. */
  type Cache = map<string, CachedOutcome>

  /** How the entry at a given index is checked when it misses the cache:
      `checkSingleLink` against a network, with the clock reading for that
      entry (see Check). */
  type Checker = (Link, nat) -> Link

  /** `stamp(i)` is the value `Date.now()` returns when the check of entry
      i settles. */
  function Check(net: Network, stamp: nat -> int): Checker
  {
    (l: Link, i: nat) => CheckSingleLink(l, net, stamp(i))
  }

  function Min(a: nat, b: nat): nat
  {
    if a <= b then a else b
  }

  /** Index of the first entry of batch b; batch b holds the entries
      BatchStart(b) .. BatchEnd(n, b) - 1. */
  function BatchStart(b: nat): nat
  {
    10 * b
  }

  /** One past the last entry of batch b, of n links. */
  function BatchEnd(n: nat, b: nat): nat
  {
    Min(BatchStart(b) + 10, n)
  }

  /** Entry i of n links belongs to batch b. */
  predicate InBatch(n: nat, b: nat, i: nat)
  {
    BatchStart(b) <= i < BatchEnd(n, b)
  }

  /** Whether n links make at least k batches (batch k - 1 is not empty). */
  predicate HasBatches(n: nat, k: nat)
  {
    BatchStart(k) < n + 10
  }

  /** `results.forEach(link => link.foundOnPage = pageUrl)` */
  function TagPage(links: seq<Link>, pageUrl: string): seq<Link>
  {
    seq(|links|, i requires 0 <= i < |links| => links[i].(foundOnPage := pageUrl))
  }

  /** A cache hit: the four cached fields are copied and `cached` is set. */
  function FromCache(link: Link, c: CachedOutcome): Link
  {
    link.(status := c.status, statusCode := c.statusCode, error := c.error,
          checkedAt := c.checkedAt, cached := true)
  }

  /** The value stored for a checked link. */
  function Outcome(l: Link): CachedOutcome
  {
    CachedOutcome(l.status, l.statusCode, l.error, l.checkedAt)
  }

  /** Entry i of a batch, resolved against the batch's snapshot. */
  function ResolveEntry(link: Link, snapshot: Cache, check: Checker, i: nat): (r: Link)
    ensures link.url in snapshot ==> r.cached && r.url == link.url && r.foundOnPage == link.foundOnPage
    ensures link.url in snapshot ==> Outcome(r) == snapshot[link.url]
  {
    if link.url in snapshot then FromCache(link, snapshot[link.url]) else check(link, i)
  }

  /** Entries lo .. hi - 1 of after are those of before resolved against
      the snapshot; the others are as they were. */
  predicate BatchResolved(before: seq<Link>, after: seq<Link>, snapshot: Cache, check: Checker, lo: nat, hi: nat)
  {
    |after| == |before| &&
    forall x :: 0 <= x < |before| ==>
      after[x] == if lo <= x < hi then ResolveEntry(before[x], snapshot, check, x) else before[x]
  }

  /** The cache once the checks of entries lo .. j-1 have stored their
      outcomes over the snapshot (in entry order). */
  function BatchWrites(links: seq<Link>, snapshot: Cache, lo: nat, j: nat, check: Checker): (r: Cache)
    requires lo <= j <= |links|
    ensures snapshot.Keys <= r.Keys
    decreases j - lo
  {
    if j == lo then snapshot
    else
      var c := BatchWrites(links, snapshot, lo, j - 1, check);
      var e := links[j - 1];
      if e.url in snapshot then c else c[e.url := Outcome(check(e, j - 1))]
  }

  /** The cache after the first k batches. */
  function CacheAfter(links: seq<Link>, cache: Cache, check: Checker, k: nat): Cache
    requires HasBatches(|links|, k)
  {
    if k == 0 then cache
    else BatchWrites(links, CacheAfter(links, cache, check, k - 1), BatchStart(k - 1), BatchEnd(|links|, k - 1), check)
  }

  /** The batch entry i belongs to. */
  function BatchOf(i: nat): (b: nat)
    ensures BatchStart(b) <= i < BatchStart(b) + 10
  {
    if i < 10 then 0 else BatchOf(i - 10) + 1
  }

  /** The links after the first k batches: an entry of a batch that ran
      is resolved against the cache as its batch found it; the others are
      untouched. */
  function LinksAfter(links: seq<Link>, cache: Cache, check: Checker, k: nat): (r: seq<Link>)
    requires HasBatches(|links|, k)
    ensures |r| == |links|
  {
    seq(|links|, i requires 0 <= i < |links| =>
      if i < BatchStart(k) then ResolveEntry(links[i], CacheAfter(links, cache, check, BatchOf(i)), check, i)
      else links[i])
  }

  /** Whether the abort flag reads true at tick t, when it read a0 at
      tick t0 and the cancel request is handled at tick cancelAt (if
      ever). */
  predicate CancelSeen(a0: bool, t0: nat, cancelAt: Option<nat>, t: nat)
  {
    a0 || (cancelAt.Some? && t0 < cancelAt.value <= t)
  }

  /** One more tick sees the flag exactly when the previous one did or the
      cancel request is handled at that tick. */
  lemma CancelSeenStep(a0: bool, t0: nat, cancelAt: Option<nat>, t: nat)
    requires t0 <= t
    ensures CancelSeen(a0, t0, cancelAt, t + 1) == (CancelSeen(a0, t0, cancelAt, t) || cancelAt == Some(t + 1))
  {
  }

  /** Whether the abort flag reads true at the start of batch b. Batch b
      starts at tick t0 + 2b: each earlier batch cost one await for its
      checks and one for the pause after it. */
  predicate AbortSeen(a0: bool, t0: nat, cancelAt: Option<nat>, b: nat)
  {
    CancelSeen(a0, t0, cancelAt, t0 + 2 * b)
  }

  /** The number of batches processed before the loop breaks: the first
      batch, from b on, at whose start the flag is seen, or all of them. */
  function BatchesRun(a0: bool, t0: nat, cancelAt: Option<nat>, n: nat, b: nat): (k: nat)
    requires HasBatches(n, b)
    ensures b <= k && HasBatches(n, k)
    // the loop stops early only at a batch whose start sees the flag
    ensures BatchStart(k) < n ==> AbortSeen(a0, t0, cancelAt, k)
    // and every batch before that one ran
    ensures forall b' :: b <= b' < k ==> !AbortSeen(a0, t0, cancelAt, b')
    decreases n + 10 - BatchStart(b)
  {
    if n <= BatchStart(b) || AbortSeen(a0, t0, cancelAt, b) then b
    else BatchesRun(a0, t0, cancelAt, n, b + 1)
  }

  // -----------------------------------------------------------------------
  // What one batch does

  lemma {:induction false} BatchWritesKeep(links: seq<Link>, snapshot: Cache, lo: nat, j: nat, check: Checker)
    requires lo <= j <= |links|
    ensures var c := BatchWrites(links, snapshot, lo, j, check);
      forall u :: u in snapshot ==> u in c && c[u] == snapshot[u]
    decreases j - lo
  {
    if j > lo {
      BatchWritesKeep(links, snapshot, lo, j - 1, check);
    }
  }

  lemma {:induction false} BatchWritesKeys(links: seq<Link>, snapshot: Cache, lo: nat, j: nat, check: Checker)
    requires lo <= j <= |links|
    ensures var c := BatchWrites(links, snapshot, lo, j, check);
      forall u :: u in c <==> u in snapshot || exists i :: lo <= i < j && links[i].url == u
    decreases j - lo
  {
    if j > lo {
      BatchWritesKeys(links, snapshot, lo, j - 1, check);
      var c := BatchWrites(links, snapshot, lo, j, check);
      forall u
        ensures u in c <==> u in snapshot || exists i :: lo <= i < j && links[i].url == u
      {
        if u != links[j - 1].url && exists i :: lo <= i < j && links[i].url == u {
          var i :| lo <= i < j && links[i].url == u;
          assert i < j - 1;
        }
      }
    }
  }

  /** Every value written is the snapshot's or an outcome of a check. */
  lemma {:induction false} BatchWritesValues(links: seq<Link>, snapshot: Cache, lo: nat, j: nat, check: Checker, u: string)
    requires lo <= j <= |links|
    requires u in BatchWrites(links, snapshot, lo, j, check) && u !in snapshot
    ensures exists i ::
      lo <= i < j && links[i].url == u && BatchWrites(links, snapshot, lo, j, check)[u] == Outcome(check(links[i], i))
    decreases j - lo
  {
    if links[j - 1].url != u {
      BatchWritesValues(links, snapshot, lo, j - 1, check, u);
    }
  }

  /** A checked entry's outcome is what the cache holds for its URL when
      no other entry of the batch has that URL (so the order in which the
      checks settle does not matter). */
  lemma {:induction false} BatchWritesStore(links: seq<Link>, snapshot: Cache, lo: nat, j: nat, check: Checker, i: nat)
    requires lo <= i < j <= |links| && links[i].url !in snapshot
    requires forall i' :: lo <= i' < j && i' != i ==> links[i'].url != links[i].url
    ensures var c := BatchWrites(links, snapshot, lo, j, check);
      links[i].url in c && c[links[i].url] == Outcome(check(links[i], i))
    decreases j - lo
  {
    if j - 1 > i {
      BatchWritesStore(links, snapshot, lo, j - 1, check, i);
    }
  }

  /** BatchWrites one entry further. */
  lemma BatchWritesStep(links: seq<Link>, snapshot: Cache, lo: nat, j: nat, check: Checker)
    requires lo <= j < |links|
    ensures BatchWrites(links, snapshot, lo, j + 1, check) ==
      if links[j].url in snapshot then BatchWrites(links, snapshot, lo, j, check)
      else BatchWrites(links, snapshot, lo, j, check)[links[j].url := Outcome(check(links[j], j))]
  {
  }

  lemma CheckAt(net: Network, stamp: nat -> int, l: Link, i: nat)
    ensures Check(net, stamp)(l, i) == CheckSingleLink(l, net, stamp(i))
  {
  }

  /** A batch's writes depend only on the entries of that batch. */
  lemma {:induction false} BatchWritesFrame(a: seq<Link>, b: seq<Link>, snapshot: Cache, lo: nat, j: nat, check: Checker)
    requires lo <= j <= |a| && j <= |b|
    requires forall i :: lo <= i < j ==> a[i] == b[i]
    ensures BatchWrites(a, snapshot, lo, j, check) == BatchWrites(b, snapshot, lo, j, check)
    decreases j - lo
  {
    if j > lo {
      BatchWritesFrame(a, b, snapshot, lo, j - 1, check);
    }
  }

  /** The entries of batch b are those whose index divides down to b. */
  lemma BatchOfIn(b: nat, i: nat)
    requires BatchStart(b) <= i < BatchStart(b) + 10
    ensures BatchOf(i) == b
  {
  }

  // -----------------------------------------------------------------------
  // What the first k batches do

  /** The cache after one more batch. */
  lemma CacheAfterNext(links: seq<Link>, cache: Cache, check: Checker, b: nat)
    requires BatchStart(b) < |links|
    ensures CacheAfter(links, cache, check, b + 1) ==
      BatchWrites(links, CacheAfter(links, cache, check, b), BatchStart(b), BatchEnd(|links|, b), check)
  {
  }

  /** An entry of a batch that ran is resolved against the cache its
      batch found. */
  lemma LinksAfterAt(links: seq<Link>, cache: Cache, check: Checker, k: nat, j: nat)
    requires HasBatches(|links|, k) && j < |links| && j < BatchStart(k)
    ensures LinksAfter(links, cache, check, k)[j] ==
      ResolveEntry(links[j], CacheAfter(links, cache, check, BatchOf(j)), check, j)
  {
  }

  /** Entries past the batches that ran are as they came. */
  lemma LinksAfterUntouched(links: seq<Link>, cache: Cache, check: Checker, k: nat, x: nat)
    requires HasBatches(|links|, k) && BatchStart(k) <= x < |links|
    ensures LinksAfter(links, cache, check, k)[x] == links[x]
  {
  }

  /** The state of the batch loop after k batches: the links and the
      cache are those the first k batches give. */
  ghost predicate Progress(links: seq<Link>, cache: Cache, check: Checker, k: nat,
                           results: seq<Link>, entries: Cache)
  {
    HasBatches(|links|, k) &&
    results == LinksAfter(links, cache, check, k) &&
    entries == CacheAfter(links, cache, check, k)
  }

  /** Running batch b, entries lo .. hi - 1, over the links after b
      batches and against the cache as it stood after b batches, gives the
      links and the cache after b + 1 batches. */
  lemma BatchAdvance(links: seq<Link>, cache: Cache, check: Checker, b: nat,
                     before: seq<Link>, snapshot: Cache, lo: nat, hi: nat,
                     after: seq<Link>, written: Cache)
    requires Progress(links, cache, check, b, before, snapshot)
    requires lo == BatchStart(b) < |links| && hi == BatchEnd(|links|, b)
    requires BatchResolved(before, after, snapshot, check, lo, hi)
    requires written == BatchWrites(before, snapshot, lo, hi, check)
    ensures Progress(links, cache, check, b + 1, after, written)
  {
    forall x | lo <= x < hi
      ensures before[x] == links[x]
    {
      LinksAfterUntouched(links, cache, check, b, x);
    }
    BatchWritesFrame(before, links, snapshot, lo, hi, check);
    forall x | 0 <= x < |links|
      ensures after[x] == LinksAfter(links, cache, check, b + 1)[x]
    {
      if lo <= x < hi {
        BatchOfIn(b, x);
      }
    }
  }

  /** Nothing the cache held after b batches is overwritten later. */
  lemma {:induction false} CacheAfterGrows(links: seq<Link>, cache: Cache, check: Checker, b: nat, k: nat, u: string)
    requires b <= k && HasBatches(|links|, k) && u in CacheAfter(links, cache, check, b)
    ensures u in CacheAfter(links, cache, check, k)
    ensures CacheAfter(links, cache, check, k)[u] == CacheAfter(links, cache, check, b)[u]
  {
    if b < k {
      CacheAfterGrows(links, cache, check, b, k - 1, u);
      var c := CacheAfter(links, cache, check, k - 1);
      BatchWritesKeep(links, c, BatchStart(k - 1), BatchEnd(|links|, k - 1), check);
    }
  }

  /** The URL of every processed entry is in the cache. */
  lemma {:induction false} CacheAfterHas(links: seq<Link>, cache: Cache, check: Checker, k: nat, i: nat)
    requires HasBatches(|links|, k) && i < |links| && i < BatchStart(k)
    ensures links[i].url in CacheAfter(links, cache, check, k)
  {
    var p := CacheAfter(links, cache, check, k - 1);
    var lo := BatchStart(k - 1);
    var hi := BatchEnd(|links|, k - 1);
    if i < lo {
      CacheAfterHas(links, cache, check, k - 1, i);
      CacheAfterGrows(links, cache, check, k - 1, k, links[i].url);
    } else {
      BatchWritesKeys(links, p, lo, hi, check);
    }
  }

  /** Every URL the cache gains is that of a processed entry. */
  lemma {:induction false} CacheAfterOnly(links: seq<Link>, cache: Cache, check: Checker, k: nat, u: string) returns (i: nat)
    requires HasBatches(|links|, k) && u in CacheAfter(links, cache, check, k) && u !in cache
    ensures i < |links| && i < BatchStart(k) && links[i].url == u
  {
    var p := CacheAfter(links, cache, check, k - 1);
    var lo := BatchStart(k - 1);
    var hi := BatchEnd(|links|, k - 1);
    BatchWritesKeys(links, p, lo, hi, check);
    if u in p {
      i := CacheAfterOnly(links, cache, check, k - 1, u);
    } else {
      i :| lo <= i < hi && links[i].url == u;
    }
  }

  /** Every stored status is a resolved one. */
  predicate CacheResolved(c: Cache)
  {
    forall u :: u in c ==> c[u].status != Unchecked
  }

  /** A checker that always decides between working and broken. */
  ghost predicate Decides(check: Checker)
  {
    forall l: Link, i: nat :: check(l, i).status != Unchecked
  }

  lemma CheckDecides(net: Network, stamp: nat -> int)
    ensures Decides(Check(net, stamp))
  {
    forall l: Link, i: nat
      ensures Check(net, stamp)(l, i).status != Unchecked
    {
      CheckAt(net, stamp, l, i);
    }
  }

  lemma {:induction false} BatchWritesResolved(links: seq<Link>, snapshot: Cache, lo: nat, j: nat, check: Checker)
    requires lo <= j <= |links| && CacheResolved(snapshot) && Decides(check)
    ensures CacheResolved(BatchWrites(links, snapshot, lo, j, check))
    decreases j - lo
  {
    if j > lo {
      BatchWritesResolved(links, snapshot, lo, j - 1, check);
      assert check(links[j - 1], j - 1).status != Unchecked;
    }
  }

  lemma {:induction false} CacheAfterResolved(links: seq<Link>, cache: Cache, check: Checker, k: nat)
    requires HasBatches(|links|, k) && CacheResolved(cache) && Decides(check)
    ensures CacheResolved(CacheAfter(links, cache, check, k))
  {
    if k > 0 {
      CacheAfterResolved(links, cache, check, k - 1);
      BatchWritesResolved(links, CacheAfter(links, cache, check, k - 1), BatchStart(k - 1), BatchEnd(|links|, k - 1), check);
    }
  }

  // -----------------------------------------------------------------------
  // performLinkChecking as a whole: the links of one page, tagged with
  // the page, after the batches that ran

  /** The links come back in the same order, as the same links, tagged
      with the page they were found on. */
  lemma ResultsKeepLinks(links: seq<Link>, pageUrl: string, cache: Cache, net: Network, stamp: nat -> int, k: nat)
    requires HasBatches(|links|, k)
    ensures var r := LinksAfter(TagPage(links, pageUrl), cache, Check(net, stamp), k);
      |r| == |links| &&
      forall i :: 0 <= i < |links| ==>
        r[i].url == links[i].url && r[i].text == links[i].text && r[i].kind == links[i].kind &&
        r[i].foundOnPage == pageUrl
  {
    var tagged := TagPage(links, pageUrl);
    var r := LinksAfter(tagged, cache, Check(net, stamp), k);
    forall i | 0 <= i < |links|
      ensures r[i].url == links[i].url && r[i].text == links[i].text && r[i].kind == links[i].kind
      ensures r[i].foundOnPage == pageUrl
    {
      if i < BatchStart(k) {
        ResolveKeepsLink(tagged[i], CacheAfter(tagged, cache, Check(net, stamp), BatchOf(i)), net, stamp, i);
      }
    }
  }

  lemma ResolveKeepsLink(link: Link, snapshot: Cache, net: Network, stamp: nat -> int, i: nat)
    ensures var r := ResolveEntry(link, snapshot, Check(net, stamp), i);
      r.url == link.url && r.text == link.text && r.kind == link.kind && r.foundOnPage == link.foundOnPage
  {
    if link.url !in snapshot {
      var r := CheckSingleLink(link, net, stamp(i));
      assert ResolveEntry(link, snapshot, Check(net, stamp), i) == r;
    }
  }

  /** Every entry of a batch that ran is decided (working or broken) when
      the cache held only decided outcomes; the others keep the status
      they came with. */
  lemma ProcessedAreDecided(links: seq<Link>, pageUrl: string, cache: Cache, net: Network, stamp: nat -> int, k: nat)
    requires HasBatches(|links|, k) && CacheResolved(cache)
    ensures var r := LinksAfter(TagPage(links, pageUrl), cache, Check(net, stamp), k);
      (forall i :: 0 <= i < |links| && i < BatchStart(k) ==> r[i].status != Unchecked) &&
      (forall i :: BatchStart(k) <= i < |links| ==> r[i] == links[i].(foundOnPage := pageUrl))
  {
    var tagged := TagPage(links, pageUrl);
    var check := Check(net, stamp);
    CheckDecides(net, stamp);
    forall i | 0 <= i < |links| && i < BatchStart(k)
      ensures LinksAfter(tagged, cache, check, k)[i].status != Unchecked
    {
      CacheAfterResolved(tagged, cache, check, BatchOf(i));
    }
  }

  /** A URL met again in a later batch is served from the cache: it is not
      checked a second time, and it copies the stored outcome. */
  lemma RepeatServedFromCache(links: seq<Link>, cache: Cache, check: Checker, k: nat, i: nat, j: nat)
    requires HasBatches(|links|, k) && j < |links| && j < BatchStart(k)
    requires i < BatchStart(BatchOf(j)) && links[i].url == links[j].url
    ensures var c := CacheAfter(links, cache, check, BatchOf(j));
      links[j].url in c &&
      LinksAfter(links, cache, check, k)[j] == FromCache(links[j], c[links[j].url]) &&
      LinksAfter(links, cache, check, k)[j].cached
  {
    CacheAfterHas(links, cache, check, BatchOf(j), i);
  }

  /** No entry of batch b other than entry j has the URL of entry j. */
  predicate InBatchUnique(links: seq<Link>, b: nat, j: nat)
    requires j < |links|
  {
    forall i :: BatchStart(b) <= i < BatchEnd(|links|, b) && i != j ==> links[i].url != links[j].url
  }

  /** The batch of a checked entry leaves its outcome in the cache, when no
      other entry of its batch has that URL. */
  lemma CheckedOutcomeStored(links: seq<Link>, cache: Cache, check: Checker, j: nat)
    requires j < |links| && links[j].url !in CacheAfter(links, cache, check, BatchOf(j))
    requires InBatchUnique(links, BatchOf(j), j)
    ensures var c := CacheAfter(links, cache, check, BatchOf(j) + 1);
      links[j].url in c && c[links[j].url] == Outcome(check(links[j], j))
  {
    var b := BatchOf(j);
    BatchWritesStore(links, CacheAfter(links, cache, check, b), BatchStart(b), BatchEnd(|links|, b), check, j);
    CacheAfterNext(links, cache, check, b);
  }

  /** The outcome a checked entry reports is the one the cache keeps for
      its URL from then on, when no other entry of its batch has that URL. */
  lemma CheckedOutcomeKept(links: seq<Link>, cache: Cache, check: Checker, k: nat, j: nat)
    requires HasBatches(|links|, k) && j < |links| && j < BatchStart(k)
    requires links[j].url !in CacheAfter(links, cache, check, BatchOf(j))
    requires InBatchUnique(links, BatchOf(j), j)
    ensures var c := CacheAfter(links, cache, check, k);
      links[j].url in c && c[links[j].url] == Outcome(LinksAfter(links, cache, check, k)[j])
  {
    CheckedOutcomeStored(links, cache, check, j);
    CacheAfterGrows(links, cache, check, BatchOf(j) + 1, k, links[j].url);
    LinksAfterAt(links, cache, check, k, j);
  }

  /** Without a cancel request every batch runs. */
  lemma NoCancelRunsAll(t0: nat, n: nat)
    ensures n <= BatchStart(BatchesRun(false, t0, None, n, 0))
  {
  }
}
