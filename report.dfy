/** The report page (plugin-scan.js): the query parameters it reads, the
    live counters it keeps while the background worker reports results,
    the final grouping, sorting and summary of the links it gets back, and
    the CSV export. The date of the export is an input. */
module Report {
  import opened Strings
  import opened Links
  import Content
  import Popup

  // ---------------------------------------------------------------------
  // Query parameters

  /** `parseInt(params.get('maxdepth')) || 2` as written: NaN (a missing
      parameter reads as parseInt(null)) and 0 are both falsy, so both
      give 2. */
  function MaxDepthAsWritten(param: Option<string>): (d: int)
    ensures d != 0
    ensures param.Some? && ParseInt(param.value).Some? && ParseInt(param.value).value != 0 ==>
      d == ParseInt(param.value).value
    ensures param.None? || ParseInt(param.value).None? || ParseInt(param.value) == Some(0) ==> d == 2
  {
    match param
    case None => 2
    case Some(s) =>
      match ParseInt(s)
      case None => 2
      case Some(v) => if v == 0 then 2 else v
  }

  /** The depth parameter with only NaN defaulting to 2, so that the 0 the
      popup accepts reaches the crawler. */
  function MaxDepthParam(param: Option<string>): (d: int)
    ensures param.Some? && ParseInt(param.value).Some? ==> d == ParseInt(param.value).value
    ensures param.None? || ParseInt(param.value).None? ==> d == 2
  {
    match param
    case None => 2
    case Some(s) =>
      match ParseInt(s)
      case None => 2
      case Some(v) => v
  }

  /** `params.get('pagesonly') !== 'false'` */
  function ScanPagesOnlyParam(param: Option<string>): (b: bool)
    ensures !b <==> param == Some("false")
  {
    param != Some("false")
  }

  /** The scan the report page asks the background worker for. */
  datatype ScanOptions = ScanOptions(target: string, maxDepth: int, scanPagesOnly: bool)

  /** The page's parameters: without a non-empty target there is no scan
      ("No target specified for scan."). */
  function OptionsOf(target: Option<string>, maxdepth: Option<string>, pagesonly: Option<string>): (r: Option<ScanOptions>)
    ensures r.None? <==> target == None || target == Some("")
    ensures r.Some? ==> r.value.target == target.value
    ensures r.Some? ==> r.value.maxDepth == MaxDepthParam(maxdepth)
    ensures r.Some? ==> r.value.scanPagesOnly == ScanPagesOnlyParam(pagesonly)
  {
    if target == None || target == Some("") then None
    else Some(ScanOptions(target.value, MaxDepthParam(maxdepth), ScanPagesOnlyParam(pagesonly)))
  }

  /** The page's parameters as written: the same, but with the depth read
      by `parseInt(...) || 2`. */
  function OptionsOfAsWritten(target: Option<string>, maxdepth: Option<string>, pagesonly: Option<string>): (r: Option<ScanOptions>)
    ensures r.None? <==> target == None || target == Some("")
    ensures r.Some? ==> r.value.target == target.value
    ensures r.Some? ==> r.value.maxDepth == MaxDepthAsWritten(maxdepth)
    ensures r.Some? ==> r.value.scanPagesOnly == ScanPagesOnlyParam(pagesonly)
  {
    if target == None || target == Some("") then None
    else Some(ScanOptions(target.value, MaxDepthAsWritten(maxdepth), ScanPagesOnlyParam(pagesonly)))
  }

  /** The written and the corrected reading differ exactly when there is
      a scan and the depth parameter parses to 0. */
  lemma OptionsDifferOnlyAtZero(target: Option<string>, maxdepth: Option<string>, pagesonly: Option<string>)
    ensures OptionsOfAsWritten(target, maxdepth, pagesonly) != OptionsOf(target, maxdepth, pagesonly) <==>
      && target != None && target != Some("")
      && maxdepth.Some? && ParseInt(maxdepth.value) == Some(0)
  {
  }

  /** As written, every depth the popup accepts survives the hand-over to
      the report page except 0, which becomes 2. */
  lemma DepthHandOffAsWritten(n: nat)
    ensures MaxDepthAsWritten(Some(NatToDecimal(n))) == if n == 0 then 2 else n
  {
    ParseIntOfDecimal(n);
  }

  /** The case that shows it: the popup accepts "0" and sends
      `maxdepth=0`, and the page scans to depth 2. */
  lemma DepthZeroBecomesTwo()
    ensures Popup.ValidateMaxDepth("0") == Popup.Accepted(0)
    ensures Popup.ScanQueryOf("https://example.com/", Popup.Unparsable, 0, true).maxdepth == "0"
    ensures MaxDepthAsWritten(Some("0")) == 2
  {
    Popup.ValidateAcceptsDecimal(0);
    DepthHandOffAsWritten(0);
  }

  /** With the corrected default, the report page reads back exactly the
      options the popup chose: the target, the accepted depth (0
      included) and the pages-only switch. */
  lemma ScanOptionsHandOff(tabUrl: string, param: Popup.TargetParam, input: string, scanPagesOnly: bool)
    requires Popup.ValidateMaxDepth(input).Accepted?
    requires tabUrl != ""
    ensures var n := Popup.ValidateMaxDepth(input).maxDepth;
      var q := Popup.ScanQueryOf(tabUrl, param, n, scanPagesOnly);
      OptionsOf(Some(q.target), Some(q.maxdepth), Some(q.pagesonly)) == Some(ScanOptions(q.target, n, scanPagesOnly))
  {
    var n := Popup.ValidateMaxDepth(input).maxDepth;
    ParseIntOfDecimal(n);
  }

  // ---------------------------------------------------------------------
  // Live counters: updateLinkResult

  datatype Counts = Counts(checked: nat, working: nat, broken: nat, cached: nat)

  /** The counters after one `updateLinkResult(url, status, isCached)`. */
  function Tallied(c: Counts, status: LinkStatus, isCached: bool): (r: Counts)
    ensures r.checked + r.cached == c.checked + c.cached + 1
    ensures r.cached == c.cached + 1 <==> isCached
    ensures r.working + r.broken <= c.working + c.broken + 1
    ensures r.working + r.broken - (c.working + c.broken) <= r.checked - c.checked
  {
    if isCached then c.(cached := c.cached + 1)
    else if status == Working then c.(checked := c.checked + 1, working := c.working + 1)
    else if status == Broken then c.(checked := c.checked + 1, broken := c.broken + 1)
    else c.(checked := c.checked + 1)
  }

  /** The page's `checkedLinks`, `workingLinks`, `brokenLinks` and
      `cachedLinks` variables. */
  class Tally {
    var checkedLinks: nat
    var workingLinks: nat
    var brokenLinks: nat
    var cachedLinks: nat

    function Counters(): Counts
      reads this
    {
      Counts(checkedLinks, workingLinks, brokenLinks, cachedLinks)
    }

    /** Only checked links are working or broken. */
    predicate Valid()
      reads this
    {
      workingLinks + brokenLinks <= checkedLinks
    }

    constructor ()
      ensures Valid() && Counters() == Counts(0, 0, 0, 0)
    {
      checkedLinks := 0;
      workingLinks := 0;
      brokenLinks := 0;
      cachedLinks := 0;
    }

    /** A cached result counts only as cached; any other result counts as
        checked and, by its status, as working or broken. */
    method UpdateLinkResult(status: LinkStatus, isCached: bool)
      requires Valid()
      modifies this
      ensures Valid()
      ensures Counters() == Tallied(old(Counters()), status, isCached)
      ensures checkedLinks + cachedLinks == old(checkedLinks + cachedLinks) + 1
    {
      if isCached {
        cachedLinks := cachedLinks + 1;
      } else {
        checkedLinks := checkedLinks + 1;
        if status == Working {
          workingLinks := workingLinks + 1;
        } else if status == Broken {
          brokenLinks := brokenLinks + 1;
        }
      }
    }
  }

  /** The counters after one result per link, in order. */
  function TallyFrom(c: Counts, links: seq<Link>): (r: Counts)
    ensures r.checked + r.cached == c.checked + c.cached + |links|
    ensures r.working + r.broken - (c.working + c.broken) <= r.checked - c.checked
    decreases |links|
  {
    if links == [] then c else TallyFrom(Tallied(c, links[0].status, links[0].cached), links[1..])
  }

  // ---------------------------------------------------------------------
  // Summary

  /** The link classes the summary counts. */
  datatype Tag = CachedTag | FreshTag | WorkingFreshTag | BrokenFreshTag

  predicate Has(tag: Tag, l: Link)
  {
    match tag
    case CachedTag => l.cached
    case FreshTag => !l.cached
    case WorkingFreshTag => l.status == Working && !l.cached
    case BrokenFreshTag => l.status == Broken && !l.cached
  }

  /** `links.filter(…).length` */
  function Count(links: seq<Link>, tag: Tag): (n: nat)
    ensures n <= |links|
  {
    if links == [] then 0 else (if Has(tag, links[0]) then 1 else 0) + Count(links[1..], tag)
  }

  datatype Summary = Summary(pagesScanned: nat, uniqueLinks: nat, checkedCount: int, workingCount: nat, brokenCount: nat)

  /** The "Scan Summary" of `displayFinalResults(links, pagesScanned)`. */
  function Summarize(links: seq<Link>, pagesScanned: Option<nat>): Summary
  {
    Summary(
      if pagesScanned == None then 0 else pagesScanned.value,
      |Content.KeysOf(links, Content.Url)|,
      |links| - Count(links, CachedTag),
      Count(links, WorkingFreshTag),
      Count(links, BrokenFreshTag))
  }

  lemma {:induction false} CountSplit(links: seq<Link>)
    ensures Count(links, CachedTag) + Count(links, FreshTag) == |links|
    ensures Count(links, WorkingFreshTag) + Count(links, BrokenFreshTag) <= Count(links, FreshTag)
  {
    if links != [] {
      CountSplit(links[1..]);
    }
  }

  /** Counting one result per link reaches the counts of the summary. */
  lemma {:induction false} TallyCounts(c: Counts, links: seq<Link>)
    ensures TallyFrom(c, links) ==
      Counts(c.checked + Count(links, FreshTag), c.working + Count(links, WorkingFreshTag),
             c.broken + Count(links, BrokenFreshTag), c.cached + Count(links, CachedTag))
    decreases |links|
  {
    if links != [] {
      TallyCounts(Tallied(c, links[0].status, links[0].cached), links[1..]);
    }
  }

  /** The live counters, started at zero and fed one result per link,
      agree with the final summary: checked = all but the cached ones, and
      the working and broken counts leave out cached links. */
  lemma TallyMatchesSummary(links: seq<Link>, pagesScanned: Option<nat>)
    ensures var s := Summarize(links, pagesScanned);
      var t := TallyFrom(Counts(0, 0, 0, 0), links);
      && t.checked == s.checkedCount && t.working == s.workingCount
      && t.broken == s.brokenCount && t.cached == |links| - s.checkedCount
  {
    TallyCounts(Counts(0, 0, 0, 0), links);
    CountSplit(links);
  }

  /** The number of distinct keys is at most the length, and equals it
      exactly when no key repeats. */
  lemma {:induction false} DistinctKeys<T>(ls: seq<T>, key: T -> string)
    ensures |Content.KeysOf(ls, key)| <= |ls|
    ensures |Content.KeysOf(ls, key)| == |ls| <==> Content.UniqueKeys(ls, key)
  {
    if ls != [] {
      var init, x := ls[..|ls| - 1], ls[|ls| - 1];
      assert ls == init + [x];
      DistinctKeys(init, key);
      Content.KeysOfSnoc(init, x, key);
      if key(x) in Content.KeysOf(init, key) {
        RepeatedKey(init, x, key);
      } else {
        if Content.UniqueKeys(init, key) {
          Content.UniqueKeysSnoc(init, x, key);
        }
        if Content.UniqueKeys(init + [x], key) {
          UniqueKeysInit(init, x, key);
        }
      }
    }
  }

  /** An element whose key is already present makes the keys repeat. */
  lemma RepeatedKey<T>(init: seq<T>, x: T, key: T -> string)
    requires key(x) in Content.KeysOf(init, key)
    ensures !Content.UniqueKeys(init + [x], key)
  {
    var ls := init + [x];
    var j := Content.KeysOfWitness(init, key, key(x));
    assert ls[j] == init[j] && ls[|init|] == x;
  }

  /** Unique keys stay unique without the last element. */
  lemma UniqueKeysInit<T>(init: seq<T>, x: T, key: T -> string)
    requires Content.UniqueKeys(init + [x], key)
    ensures Content.UniqueKeys(init, key)
  {
    var ls := init + [x];
    forall i, k | 0 <= i < k < |init|
      ensures key(init[i]) != key(init[k])
    {
      assert ls[i] == init[i] && ls[k] == init[k];
    }
  }

  /** The summary's figures: at most one unique URL per link (as many as
      links exactly when no URL repeats), checked = the links not taken
      from the cache, and working plus broken within the checked ones. */
  lemma SummaryBounds(links: seq<Link>, pagesScanned: Option<nat>)
    ensures var s := Summarize(links, pagesScanned);
      && s.uniqueLinks <= |links|
      && (s.uniqueLinks == |links| <==> Content.UniqueKeys(links, Content.Url))
      && s.checkedCount == Count(links, FreshTag)
      && s.workingCount + s.brokenCount <= s.checkedCount
  {
    DistinctKeys(links, Content.Url);
    CountSplit(links);
  }

  // ---------------------------------------------------------------------
  // String order and the comparator of the result groups

  /** `a < b` on strings: lexicographic by character, a proper prefix
      first. */
  predicate StrLess(a: string, b: string)
  {
    if a == [] then b != []
    else if b == [] then false
    else if a[0] != b[0] then a[0] < b[0]
    else StrLess(a[1..], b[1..])
  }

  lemma {:induction false} StrLessAsymmetric(a: string, b: string)
    requires StrLess(a, b)
    ensures !StrLess(b, a) && a != b
  {
    if a != [] && b != [] && a[0] == b[0] {
      StrLessAsymmetric(a[1..], b[1..]);
    }
  }

  lemma {:induction false} StrLessTransitive(a: string, b: string, c: string)
    requires StrLess(a, b) && StrLess(b, c)
    ensures StrLess(a, c)
  {
    if a != [] && b != [] && c != [] && a[0] == b[0] && b[0] == c[0] {
      StrLessTransitive(a[1..], b[1..], c[1..]);
    }
  }

  lemma {:induction false} StrLessTotal(a: string, b: string)
    ensures a == b || StrLess(a, b) || StrLess(b, a)
  {
    if a != [] && b != [] && a[0] == b[0] {
      StrLessTotal(a[1..], b[1..]);
      if a[1..] == b[1..] {
        assert a == [a[0]] + a[1..] && b == [b[0]] + b[1..];
      }
    }
  }

  /** What the comparator looks at: foundOnPage, then url. */
  datatype SortKey = SortKey(page: string, url: string)

  function LinkKey(l: Link): SortKey
  {
    SortKey(l.foundOnPage, l.url)
  }

  /** The order the comparator defines on keys. */
  predicate KeyLess(x: SortKey, y: SortKey)
  {
    StrLess(x.page, y.page) || (x.page == y.page && StrLess(x.url, y.url))
  }

  /** The comparator passed to the three `sort` calls. */
  function Compare(a: Link, b: Link): int
  {
    if StrLess(a.foundOnPage, b.foundOnPage) then -1
    else if StrLess(b.foundOnPage, a.foundOnPage) then 1
    else if StrLess(a.url, b.url) then -1
    else if StrLess(b.url, a.url) then 1
    else 0
  }

  /** The comparator is consistent, as `Array.prototype.sort` needs: it is
      negative exactly for KeyLess, zero exactly for equal keys, and
      antisymmetric. */
  lemma CompareConsistent(a: Link, b: Link)
    ensures Compare(a, b) < 0 <==> KeyLess(LinkKey(a), LinkKey(b))
    ensures Compare(a, b) == 0 <==> LinkKey(a) == LinkKey(b)
    ensures Compare(a, b) == -Compare(b, a)
  {
    StrLessTotal(a.foundOnPage, b.foundOnPage);
    StrLessTotal(a.url, b.url);
    if StrLess(a.foundOnPage, b.foundOnPage) {
      StrLessAsymmetric(a.foundOnPage, b.foundOnPage);
    }
    if StrLess(b.foundOnPage, a.foundOnPage) {
      StrLessAsymmetric(b.foundOnPage, a.foundOnPage);
    }
    if StrLess(a.url, b.url) {
      StrLessAsymmetric(a.url, b.url);
    }
    if StrLess(b.url, a.url) {
      StrLessAsymmetric(b.url, a.url);
    }
  }

  lemma KeyLessAsymmetric(x: SortKey, y: SortKey)
    requires KeyLess(x, y)
    ensures !KeyLess(y, x) && x != y
  {
    if StrLess(x.page, y.page) {
      StrLessAsymmetric(x.page, y.page);
    } else {
      StrLessAsymmetric(x.url, y.url);
    }
  }

  lemma KeyLessTransitive(x: SortKey, y: SortKey, z: SortKey)
    requires KeyLess(x, y) && KeyLess(y, z)
    ensures KeyLess(x, z)
  {
    if StrLess(x.page, y.page) && StrLess(y.page, z.page) {
      StrLessTransitive(x.page, y.page, z.page);
    } else if x.page == y.page && y.page == z.page {
      StrLessTransitive(x.url, y.url, z.url);
    }
  }

  lemma KeyLessTotal(x: SortKey, y: SortKey)
    ensures x == y || KeyLess(x, y) || KeyLess(y, x)
  {
    StrLessTotal(x.page, y.page);
    StrLessTotal(x.url, y.url);
  }

  // ---------------------------------------------------------------------
  // A stable sort by key

  predicate Sorted<T>(s: seq<T>, key: T -> SortKey)
  {
    forall i, j :: 0 <= i < j < |s| ==> !KeyLess(key(s[j]), key(s[i]))
  }

  /** x placed before the first element with a greater key. */
  function Insert<T>(t: seq<T>, x: T, key: T -> SortKey): (r: seq<T>)
    ensures |r| == |t| + 1
    ensures multiset(r) == multiset(t) + multiset{x}
  {
    if t == [] then [x]
    else if KeyLess(key(x), key(t[0])) then [x] + t
    else
      assert t == [t[0]] + t[1..];
      [t[0]] + Insert(t[1..], x, key)
  }

  /** The result of a stable sort with the comparator above: the
      elements inserted one after another. */
  function SortByKey<T>(s: seq<T>, key: T -> SortKey): (r: seq<T>)
    ensures |r| == |s|
    ensures multiset(r) == multiset(s)
  {
    if s == [] then []
    else
      assert s == s[..|s| - 1] + [s[|s| - 1]];
      Insert(SortByKey(s[..|s| - 1], key), s[|s| - 1], key)
  }

  /** No element of Insert(t, x) is below a key that bounds t and x. */
  lemma {:induction false} InsertBounded<T>(t: seq<T>, x: T, key: T -> SortKey, k: SortKey)
    requires forall j :: 0 <= j < |t| ==> !KeyLess(key(t[j]), k)
    requires !KeyLess(key(x), k)
    ensures forall j :: 0 <= j < |Insert(t, x, key)| ==> !KeyLess(key(Insert(t, x, key)[j]), k)
  {
    if t != [] && !KeyLess(key(x), key(t[0])) {
      InsertBounded(t[1..], x, key, k);
    }
  }

  /** Below a key smaller than the first of a sorted sequence: nothing. */
  lemma SortedAbove<T>(t: seq<T>, key: T -> SortKey, k: SortKey, j: nat)
    requires Sorted(t, key) && t != [] && KeyLess(k, key(t[0])) && j < |t|
    ensures KeyLess(k, key(t[j]))
  {
    if j > 0 {
      KeyLessTotal(key(t[0]), key(t[j]));
      if key(t[0]) != key(t[j]) {
        KeyLessTransitive(k, key(t[0]), key(t[j]));
      }
    }
  }

  /** Insert keeps a sorted sequence sorted. */
  lemma {:induction false} InsertSorted<T>(t: seq<T>, x: T, key: T -> SortKey)
    requires Sorted(t, key)
    ensures Sorted(Insert(t, x, key), key)
  {
    if t == [] {
    } else if KeyLess(key(x), key(t[0])) {
      InsertSortedFront(t, x, key);
    } else {
      InsertSorted(t[1..], x, key);
      InsertBounded(t[1..], x, key, key(t[0]));
      InsertSortedBehind(t, x, key);
    }
  }

  lemma InsertSortedFront<T>(t: seq<T>, x: T, key: T -> SortKey)
    requires Sorted(t, key) && t != [] && KeyLess(key(x), key(t[0]))
    ensures Sorted(Insert(t, x, key), key)
  {
    assert Insert(t, x, key) == [x] + t;
    forall j | 0 <= j < |t|
      ensures !KeyLess(key(t[j]), key(x))
    {
      SortedAbove(t, key, key(x), j);
      KeyLessAsymmetric(key(x), key(t[j]));
    }
    SortedCons(x, t, key);
  }

  lemma InsertSortedBehind<T>(t: seq<T>, x: T, key: T -> SortKey)
    requires t != [] && !KeyLess(key(x), key(t[0]))
    requires Sorted(Insert(t[1..], x, key), key)
    requires forall j :: 0 <= j < |Insert(t[1..], x, key)| ==> !KeyLess(key(Insert(t[1..], x, key)[j]), key(t[0]))
    ensures Sorted(Insert(t, x, key), key)
  {
    assert Insert(t, x, key) == [t[0]] + Insert(t[1..], x, key);
    SortedCons(t[0], Insert(t[1..], x, key), key);
  }

  /** An element no greater than any of a sorted sequence can go in front. */
  lemma SortedCons<T>(h: T, t: seq<T>, key: T -> SortKey)
    requires Sorted(t, key)
    requires forall j :: 0 <= j < |t| ==> !KeyLess(key(t[j]), key(h))
    ensures Sorted([h] + t, key)
  {
    var r := [h] + t;
    forall i, j | 0 <= i < j < |r|
      ensures !KeyLess(key(r[j]), key(r[i]))
    {
      assert r[j] == t[j - 1];
      if i > 0 {
        assert r[i] == t[i - 1];
      }
    }
  }

  /** The sort orders its input by key (and, by its own contract, keeps
      every element as often as it occurs). */
  lemma {:induction false} SortByKeySorted<T>(s: seq<T>, key: T -> SortKey)
    ensures Sorted(SortByKey(s, key), key)
  {
    if s != [] {
      SortByKeySorted(s[..|s| - 1], key);
      InsertSorted(SortByKey(s[..|s| - 1], key), s[|s| - 1], key);
    }
  }

  /** The elements of s with key k, in their order. */
  function WithKey<T>(s: seq<T>, key: T -> SortKey, k: SortKey): seq<T>
  {
    if s == [] then [] else (if key(s[0]) == k then [s[0]] else []) + WithKey(s[1..], key, k)
  }

  lemma {:induction false} WithKeyAppend<T>(a: seq<T>, b: seq<T>, key: T -> SortKey, k: SortKey)
    ensures WithKey(a + b, key, k) == WithKey(a, key, k) + WithKey(b, key, k)
  {
    if a == [] {
      assert a + b == b;
    } else {
      var h := if key(a[0]) == k then [a[0]] else [];
      assert (a + b)[0] == a[0] && (a + b)[1..] == a[1..] + b;
      WithKeyAppend(a[1..], b, key, k);
      assert WithKey(a + b, key, k) == h + (WithKey(a[1..], key, k) + WithKey(b, key, k));
      assert WithKey(a, key, k) == h + WithKey(a[1..], key, k);
    }
  }

  lemma {:induction false} WithKeyNone<T>(t: seq<T>, key: T -> SortKey, k: SortKey)
    requires forall j :: 0 <= j < |t| ==> KeyLess(k, key(t[j]))
    ensures WithKey(t, key, k) == []
  {
    if t != [] {
      KeyLessAsymmetric(k, key(t[0]));
      WithKeyNone(t[1..], key, k);
    }
  }

  /** Insert puts x after every element with the same key. */
  lemma {:induction false} InsertStable<T>(t: seq<T>, x: T, key: T -> SortKey, k: SortKey)
    requires Sorted(t, key)
    ensures WithKey(Insert(t, x, key), key, k) ==
      WithKey(t, key, k) + (if key(x) == k then [x] else [])
  {
    if t == [] {
      WithKeyCons(x, [], key, k);
    } else if KeyLess(key(x), key(t[0])) {
      InsertStableFront(t, x, key, k);
    } else {
      InsertStable(t[1..], x, key, k);
      InsertStableBehind(t, x, key, k);
    }
  }

  /** x goes in front of a sorted t whose keys all exceed its own. */
  lemma InsertStableFront<T>(t: seq<T>, x: T, key: T -> SortKey, k: SortKey)
    requires Sorted(t, key) && t != [] && KeyLess(key(x), key(t[0]))
    ensures WithKey(Insert(t, x, key), key, k) ==
      WithKey(t, key, k) + (if key(x) == k then [x] else [])
  {
    assert Insert(t, x, key) == [x] + t;
    WithKeyCons(x, t, key, k);
    if key(x) == k {
      forall j | 0 <= j < |t|
        ensures KeyLess(k, key(t[j]))
      {
        SortedAbove(t, key, key(x), j);
      }
      WithKeyNone(t, key, k);
    }
  }

  /** x goes behind the first element of t: the filter of the rest carries over. */
  lemma InsertStableBehind<T>(t: seq<T>, x: T, key: T -> SortKey, k: SortKey)
    requires t != [] && !KeyLess(key(x), key(t[0]))
    requires WithKey(Insert(t[1..], x, key), key, k) == WithKey(t[1..], key, k) + (if key(x) == k then [x] else [])
    ensures WithKey(Insert(t, x, key), key, k) ==
      WithKey(t, key, k) + (if key(x) == k then [x] else [])
  {
    var rest := Insert(t[1..], x, key);
    assert Insert(t, x, key) == [t[0]] + rest;
    WithKeyCons(t[0], rest, key, k);
    WithKeyCons(t[0], t[1..], key, k);
    assert [t[0]] + t[1..] == t;
    AppendAssoc(if key(t[0]) == k then [t[0]] else [], WithKey(t[1..], key, k), if key(x) == k then [x] else []);
  }

  lemma AppendAssoc<T>(a: seq<T>, b: seq<T>, c: seq<T>)
    ensures a + (b + c) == (a + b) + c
  {
  }

  /** The key filter of a sequence with one element in front. */
  lemma WithKeyCons<T>(h: T, r: seq<T>, key: T -> SortKey, k: SortKey)
    ensures WithKey([h] + r, key, k) == (if key(h) == k then [h] else []) + WithKey(r, key, k)
  {
    assert ([h] + r)[1..] == r;
  }

  /** The sort is stable: the elements with any one key keep their
      relative order. */
  lemma {:induction false} SortByKeyStable<T>(s: seq<T>, key: T -> SortKey, k: SortKey)
    ensures WithKey(SortByKey(s, key), key, k) == WithKey(s, key, k)
  {
    if s != [] {
      var init, x := s[..|s| - 1], s[|s| - 1];
      assert s == init + [x];
      calc {
        WithKey(SortByKey(s, key), key, k);
        WithKey(Insert(SortByKey(init, key), x, key), key, k);
        { SortByKeySorted(init, key);
          InsertStable(SortByKey(init, key), x, key, k); }
        WithKey(SortByKey(init, key), key, k) + (if key(x) == k then [x] else []);
        { SortByKeyStable(init, key, k); }
        WithKey(init, key, k) + (if key(x) == k then [x] else []);
        { assert WithKey([x], key, k) == (if key(x) == k then [x] else []) + WithKey([x][1..], key, k); }
        WithKey(init, key, k) + WithKey([x], key, k);
        { WithKeyAppend(init, [x], key, k); }
        WithKey(s, key, k);
      }
    }
  }

  // ---------------------------------------------------------------------
  // The final order of displayFinalResults

  /** 0: broken; 1: working, checked now; 2: working, from the cache;
      3: anything else, which the report drops. */
  function Group(l: Link): nat
  {
    if l.status == Broken then 0
    else if l.status == Working && !l.cached then 1
    else if l.status == Working then 2
    else 3
  }

  /** `links.filter(…)` for one group. */
  function GroupOf(links: seq<Link>, g: nat): (r: seq<Link>)
    ensures |r| <= |links|
    ensures forall i :: 0 <= i < |r| ==> Group(r[i]) == g
  {
    if links == [] then []
    else
      assert links == [links[0]] + links[1..];
      (if Group(links[0]) == g then [links[0]] else []) + GroupOf(links[1..], g)
  }

  /** `sortedLinks`: the broken links, then the working ones checked now,
      then the working ones from the cache, each group sorted. */
  function FinalOrder(links: seq<Link>): seq<Link>
  {
    SortByKey(GroupOf(links, 0), LinkKey) + SortByKey(GroupOf(links, 1), LinkKey) +
    SortByKey(GroupOf(links, 2), LinkKey)
  }

  /** A group keeps each of its links as often as the input has it. */
  lemma {:induction false} GroupOfMultiplicity(links: seq<Link>, g: nat, x: Link)
    ensures multiset(GroupOf(links, g))[x] == if Group(x) == g then multiset(links)[x] else 0
  {
    if links != [] {
      GroupOfMultiplicity(links[1..], g, x);
      MultisetCons(links);
      var r := GroupOf(links[1..], g);
      if Group(links[0]) == g {
        assert GroupOf(links, g) == [links[0]] + r;
        assert multiset([links[0]] + r) == multiset{links[0]} + multiset(r);
      } else {
        assert GroupOf(links, g) == r;
      }
    }
  }

  lemma MultisetCons<T>(s: seq<T>)
    requires s != []
    ensures multiset(s) == multiset{s[0]} + multiset(s[1..])
  {
    assert s == [s[0]] + s[1..];
  }

  /** The final list holds every broken or working link as often as the
      input does, and no link of any other status. */
  lemma FinalOrderContents(links: seq<Link>, x: Link)
    ensures multiset(FinalOrder(links))[x] == if x.status == Unchecked then 0 else multiset(links)[x]
  {
    GroupOfMultiplicity(links, 0, x);
    GroupOfMultiplicity(links, 1, x);
    GroupOfMultiplicity(links, 2, x);
  }

  /** Each entry of the sorted sequence is an entry of its input. */
  lemma SortedFrom<T>(s: seq<T>, key: T -> SortKey, i: nat) returns (j: nat)
    requires i < |SortByKey(s, key)|
    ensures j < |s| && s[j] == SortByKey(s, key)[i]
  {
    var x := SortByKey(s, key)[i];
    assert x in multiset(SortByKey(s, key));
    assert x in multiset(s);
    j :| 0 <= j < |s| && s[j] == x;
  }

  /** The position of an entry of the final list tells its group. */
  lemma GroupAt(links: seq<Link>, i: nat)
    requires i < |FinalOrder(links)|
    ensures var a, b := |GroupOf(links, 0)|, |GroupOf(links, 1)|;
      Group(FinalOrder(links)[i]) == if i < a then 0 else if i < a + b then 1 else 2
  {
    var g0, g1, g2 := GroupOf(links, 0), GroupOf(links, 1), GroupOf(links, 2);
    var a, b, c := SortByKey(g0, LinkKey), SortByKey(g1, LinkKey), SortByKey(g2, LinkKey);
    var r := FinalOrder(links);
    if i < |a| {
      assert r[i] == a[i];
      var j := SortedFrom(g0, LinkKey, i);
    } else if i < |a| + |b| {
      assert r[i] == b[i - |a|];
      var j := SortedFrom(g1, LinkKey, i - |a|);
    } else {
      assert r[i] == c[i - |a| - |b|];
      var j := SortedFrom(g2, LinkKey, i - |a| - |b|);
    }
  }

  /** Broken links come first, then working checked ones, then working
      cached ones. */
  lemma FinalOrderGrouped(links: seq<Link>, i: nat, j: nat)
    requires i < j < |FinalOrder(links)|
    ensures Group(FinalOrder(links)[i]) <= Group(FinalOrder(links)[j])
  {
    GroupAt(links, i);
    GroupAt(links, j);
  }

  /** Three sorted parts, concatenated, are sorted within each part. */
  lemma PartsSorted<T>(a: seq<T>, b: seq<T>, c: seq<T>, key: T -> SortKey, i: nat, j: nat)
    requires Sorted(a, key) && Sorted(b, key) && Sorted(c, key)
    requires i < j < |a| + |b| + |c|
    requires (i < |a| <==> j < |a|) && (i < |a| + |b| <==> j < |a| + |b|)
    ensures !KeyLess(key((a + b + c)[j]), key((a + b + c)[i]))
  {
    var r := a + b + c;
    if j < |a| {
      assert r[i] == a[i] && r[j] == a[j];
    } else if j < |a| + |b| {
      assert r[i] == b[i - |a|] && r[j] == b[j - |a|];
    } else {
      assert r[i] == c[i - |a| - |b|] && r[j] == c[j - |a| - |b|];
    }
  }

  /** Within a group, by foundOnPage and then url. */
  lemma FinalOrderSortedInGroup(links: seq<Link>, i: nat, j: nat)
    requires i < j < |FinalOrder(links)|
    requires Group(FinalOrder(links)[i]) == Group(FinalOrder(links)[j])
    ensures !KeyLess(LinkKey(FinalOrder(links)[j]), LinkKey(FinalOrder(links)[i]))
  {
    GroupAt(links, i);
    GroupAt(links, j);
    var g0, g1, g2 := GroupOf(links, 0), GroupOf(links, 1), GroupOf(links, 2);
    SortByKeySorted(g0, LinkKey);
    SortByKeySorted(g1, LinkKey);
    SortByKeySorted(g2, LinkKey);
    PartsSorted(SortByKey(g0, LinkKey), SortByKey(g1, LinkKey), SortByKey(g2, LinkKey), LinkKey, i, j);
  }

  // ---------------------------------------------------------------------
  // CSV text

  /** `array.join(sep)` */
  function JoinWith(xs: seq<string>, sep: string): string
  {
    if xs == [] then "" else if |xs| == 1 then xs[0] else xs[0] + sep + JoinWith(xs[1..], sep)
  }

  /** The position of the first c in s. */
  function IndexOf(s: string, c: char): (i: nat)
    requires c in s
    ensures i < |s| && s[i] == c && c !in s[..i]
  {
    if s[0] == c then 0
    else
      var j := IndexOf(s[1..], c);
      assert s[..j + 1] == [s[0]] + s[1..][..j];
      j + 1
  }

  /** `s.split(c)` for a one-character separator. */
  function SplitOn(s: string, c: char): (r: seq<string>)
    ensures |r| >= 1
    decreases |s|
  {
    if c in s then
      var i := IndexOf(s, c);
      [s[..i]] + SplitOn(s[i + 1..], c)
    else [s]
  }

  /** Splitting on a character no piece contains undoes the join. */
  lemma {:induction false} SplitJoin(xs: seq<string>, c: char)
    requires |xs| >= 1 && forall i :: 0 <= i < |xs| ==> c !in xs[i]
    ensures SplitOn(JoinWith(xs, [c]), c) == xs
  {
    if |xs| > 1 {
      var rest := JoinWith(xs[1..], [c]);
      var s := xs[0] + [c] + rest;
      assert s[|xs[0]|] == c && s[..|xs[0]|] == xs[0];
      assert s[|xs[0]| + 1..] == rest;
      SplitJoin(xs[1..], c);
    }
  }

  /** A character in none of the pieces nor the separator is not in the
      joined text. */
  lemma {:induction false} NotInJoin(xs: seq<string>, sep: string, c: char)
    requires c !in sep && forall i :: 0 <= i < |xs| ==> c !in xs[i]
    ensures c !in JoinWith(xs, sep)
  {
    if |xs| > 1 {
      NotInJoin(xs[1..], sep, c);
    }
  }

  /** `"${field}"`: no escaping of quotes inside. */
  function Quote(f: string): string
  {
    "\"" + f + "\""
  }

  function QuoteAll(fs: seq<string>): (r: seq<string>)
    ensures |r| == |fs|
  {
    if fs == [] then [] else [Quote(fs[0])] + QuoteAll(fs[1..])
  }

  /** `row.map(field => `"${field}"`).join(',')` */
  function CsvLine(fs: seq<string>): string
  {
    JoinWith(QuoteAll(fs), ",")
  }

  /** A field the CSV reads back as written: no quote, no line break. */
  predicate Plain(f: string)
  {
    '"' !in f && '\n' !in f
  }

  /** Reads a line of quoted fields back: `"a","b",…`. */
  function ParseFields(s: string): Option<seq<string>>
    decreases |s|
  {
    if |s| == 0 || s[0] != '"' || '"' !in s[1..] then None
    else
      var i := IndexOf(s[1..], '"');
      var after := s[i + 2..];
      if after == [] then Some([s[1..i + 1]])
      else if after[0] != ',' then None
      else
        match ParseFields(after[1..])
        case None => None
        case Some(fs) => Some([s[1..i + 1]] + fs)
  }

  /** The first c is where it is seen first. */
  lemma IndexOfAt(s: string, c: char, i: nat)
    requires i < |s| && s[i] == c && c !in s[..i]
    ensures IndexOf(s, c) == i
  {
  }

  /** Reading a line that starts with a quoted field. */
  lemma ParseQuotedHead(f: string, tail: string)
    requires '"' !in f
    ensures ParseFields(Quote(f) + tail) ==
      if tail == [] then Some([f])
      else if tail[0] != ',' then None
      else match ParseFields(tail[1..])
           case None => None
           case Some(fs) => Some([f] + fs)
  {
    var s := Quote(f) + tail;
    assert s[1..][|f|] == '"' && s[1..][..|f|] == f;
    IndexOfAt(s[1..], '"', |f|);
    assert s[1..|f| + 1] == f;
    assert s[|f| + 2..] == tail;
  }

  /** Quoting plain fields into a line and reading it back gives them
      back. */
  lemma {:induction false} FieldsRoundTrip(fs: seq<string>)
    requires |fs| >= 1 && forall i :: 0 <= i < |fs| ==> Plain(fs[i])
    ensures ParseFields(CsvLine(fs)) == Some(fs)
  {
    var f := fs[0];
    var tail := if |fs| == 1 then "" else "," + CsvLine(fs[1..]);
    assert QuoteAll(fs)[1..] == QuoteAll(fs[1..]);
    assert CsvLine(fs) == Quote(f) + tail;
    ParseQuotedHead(f, tail);
    if |fs| > 1 {
      FieldsRoundTrip(fs[1..]);
      assert tail[1..] == CsvLine(fs[1..]);
      assert fs == [f] + fs[1..];
    } else {
      assert fs == [f];
    }
  }

  /** A line of plain fields has no line break. */
  lemma LineHasNoBreak(fs: seq<string>)
    requires forall i :: 0 <= i < |fs| ==> Plain(fs[i])
    ensures '\n' !in CsvLine(fs)
  {
    var qs := QuoteAll(fs);
    forall i | 0 <= i < |qs|
      ensures '\n' !in qs[i]
    {
      QuoteAllAt(fs, i);
    }
    NotInJoin(qs, ",", '\n');
  }

  lemma {:induction false} QuoteAllAt(fs: seq<string>, i: nat)
    requires i < |fs|
    ensures QuoteAll(fs)[i] == Quote(fs[i])
  {
    if i > 0 {
      QuoteAllAt(fs[1..], i - 1);
    }
  }

  function ParseLines(lines: seq<string>): Option<seq<seq<string>>>
  {
    if lines == [] then Some([])
    else
      match (ParseFields(lines[0]), ParseLines(lines[1..]))
      case (Some(fs), Some(rest)) => Some([fs] + rest)
      case _ => None
  }

  /** Reads a CSV text back into its rows of fields. */
  function ParseCsv(text: string): Option<seq<seq<string>>>
  {
    ParseLines(SplitOn(text, '\n'))
  }

  const Headers: seq<string> := ["Status", "Type", "On Page", "URL", "Code", "Source"]

  /** `${n}` for an integer. */
  function IntText(n: int): string
  {
    if n < 0 then "-" + NatToDecimal(-n) else NatToDecimal(n)
  }

  /** `link.statusCode || 'N/A'`: a missing code and the code 0 (falsy)
      both print as N/A. */
  function CodeField(code: Option<int>): string
  {
    match code
    case None => "N/A"
    case Some(c) => if c == 0 then "N/A" else IntText(c)
  }

  /** The six fields of a link's row. The `link.type || 'page'` default
      never applies here, since every link has a type. */
  function CsvRow(l: Link): (r: seq<string>)
    ensures |r| == |Headers|
  {
    [if l.status == Working then "Working" else "Broken",
     TypeName(l.kind),
     l.foundOnPage,
     l.url,
     CodeField(l.statusCode),
     if l.cached then "Cache" else "Checked"]
  }

  /** The header line, then one line per link. */
  function CsvLines(links: seq<Link>): (r: seq<string>)
    ensures |r| == |links| + 1
  {
    if links == [] then [CsvLine(Headers)]
    else CsvLines(links[..|links| - 1]) + [CsvLine(CsvRow(links[|links| - 1]))]
  }

  /** `csvContent` */
  function CsvContent(links: seq<Link>): string
  {
    JoinWith(CsvLines(links), "\n")
  }

  /** The rows the CSV is meant to hold. */
  function Rows(links: seq<Link>): (r: seq<seq<string>>)
    ensures |r| == |links| + 1
  {
    if links == [] then [Headers] else Rows(links[..|links| - 1]) + [CsvRow(links[|links| - 1])]
  }

  /** A link whose URL and page URL hold no quote or line break. */
  predicate PlainLink(l: Link)
  {
    Plain(l.url) && Plain(l.foundOnPage)
  }

  lemma DigitsArePlain(n: nat)
    ensures Plain(NatToDecimal(n))
  {
    var r := NatToDecimal(n);
    assert forall i :: 0 <= i < |r| ==> IsDecimalDigit(r[i]);
  }

  lemma RowIsPlain(l: Link)
    requires PlainLink(l)
    ensures forall i :: 0 <= i < |CsvRow(l)| ==> Plain(CsvRow(l)[i])
  {
    var r := CsvRow(l);
    match l.statusCode
    case None =>
    case Some(c) =>
      if c < 0 {
        DigitsArePlain(-c);
      } else {
        DigitsArePlain(c);
      }
    assert Plain(TypeName(l.kind));
  }

  lemma HeadersArePlain()
    ensures forall i :: 0 <= i < |Headers| ==> Plain(Headers[i])
  {
    assert Plain(Headers[0]) && Plain(Headers[1]) && Plain(Headers[2]);
    assert Plain(Headers[3]) && Plain(Headers[4]) && Plain(Headers[5]);
  }

  /** A line of plain fields has no line break and reads back as its
      fields. */
  lemma PlainLineRoundTrip(fs: seq<string>)
    requires |fs| >= 1 && forall i :: 0 <= i < |fs| ==> Plain(fs[i])
    ensures '\n' !in CsvLine(fs)
    ensures ParseFields(CsvLine(fs)) == Some(fs)
  {
    FieldsRoundTrip(fs);
    LineHasNoBreak(fs);
  }

  /** The header line has no line break and reads back as the headers. */
  lemma HeaderLineRoundTrip()
    ensures '\n' !in CsvLine(Headers)
    ensures ParseFields(CsvLine(Headers)) == Some(Headers)
  {
    HeadersArePlain();
    PlainLineRoundTrip(Headers);
  }

  /** A link's line has no line break and reads back as its row. */
  lemma RowLineRoundTrip(l: Link)
    requires PlainLink(l)
    ensures '\n' !in CsvLine(CsvRow(l))
    ensures ParseFields(CsvLine(CsvRow(l))) == Some(CsvRow(l))
  {
    RowIsPlain(l);
    PlainLineRoundTrip(CsvRow(l));
  }

  lemma {:induction false} LinesArePlain(links: seq<Link>, i: nat)
    requires forall k :: 0 <= k < |links| ==> PlainLink(links[k])
    requires i < |CsvLines(links)|
    ensures '\n' !in CsvLines(links)[i]
    ensures ParseFields(CsvLines(links)[i]) == Some(Rows(links)[i])
  {
    if links == [] {
      HeaderLineRoundTrip();
    } else {
      var init, l := links[..|links| - 1], links[|links| - 1];
      if i == |links| {
        RowLineRoundTrip(l);
      } else {
        assert forall k :: 0 <= k < |init| ==> init[k] == links[k];
        LinesArePlain(init, i);
        assert CsvLines(links)[i] == CsvLines(init)[i];
        assert Rows(links)[i] == Rows(init)[i];
      }
    }
  }

  lemma {:induction false} ParseEachLine(lines: seq<string>, rows: seq<seq<string>>)
    requires |lines| == |rows|
    requires forall i :: 0 <= i < |lines| ==> ParseFields(lines[i]) == Some(rows[i])
    ensures ParseLines(lines) == Some(rows)
  {
    if lines != [] {
      ParseEachLine(lines[1..], rows[1..]);
      ParseLinesCons(lines, rows[0], rows[1..]);
      assert rows == [rows[0]] + rows[1..];
    }
  }

  lemma ParseLinesCons(lines: seq<string>, row: seq<string>, rest: seq<seq<string>>)
    requires lines != [] && ParseFields(lines[0]) == Some(row) && ParseLines(lines[1..]) == Some(rest)
    ensures ParseLines(lines) == Some([row] + rest)
  {
  }

  /** The CSV reads back as the header row and one row per link, in order,
      when no URL holds a quote or a line break (the export does not
      escape them). */
  lemma CsvRoundTrip(links: seq<Link>)
    requires forall k :: 0 <= k < |links| ==> PlainLink(links[k])
    ensures ParseCsv(CsvContent(links)) == Some(Rows(links))
  {
    var lines := CsvLines(links);
    forall i | 0 <= i < |lines|
      ensures '\n' !in lines[i] && ParseFields(lines[i]) == Some(Rows(links)[i])
    {
      LinesArePlain(links, i);
    }
    SplitJoin(lines, '\n');
    ParseEachLine(lines, Rows(links));
  }

  /** The Status, Type, On Page, URL and Source columns: Working exactly
      for a working link, the link's type, page and URL, and Cache exactly
      for a link taken from the cache. */
  lemma RowColumns(l: Link)
    ensures CsvRow(l)[0] == "Working" <==> l.status == Working
    ensures CsvRow(l)[1] == TypeName(l.kind) && CsvRow(l)[2] == l.foundOnPage && CsvRow(l)[3] == l.url
    ensures CsvRow(l)[5] == "Cache" <==> l.cached
  {
  }

  /** The Code column: N/A exactly for a missing or zero code, and a
      positive code reads back as its number. */
  lemma CodeColumn(code: Option<int>)
    ensures CodeField(code) == "N/A" <==> code == None || code == Some(0)
    ensures code.Some? && code.value > 0 ==> ParseInt(CodeField(code)) == Some(code.value)
  {
    if code.Some? && code.value != 0 {
      var c := code.value;
      if c > 0 {
        ParseIntOfDecimal(c);
        assert IsDecimalDigit(NatToDecimal(c)[0]);
      } else {
        assert IntText(c)[0] == '-';
      }
    }
  }

  /** In the export of the final list, "Broken" marks exactly the broken
      links: nothing unchecked is left to be mislabelled. */
  lemma ExportedStatus(links: seq<Link>, i: nat)
    requires i < |FinalOrder(links)|
    ensures CsvRow(FinalOrder(links)[i])[0] == "Broken" <==> FinalOrder(links)[i].status == Broken
  {
    GroupAt(links, i);
  }

  // ---------------------------------------------------------------------
  // File name and export

  /** `target.replace(/[^a-zA-Z0-9]/g, '-')` */
  function Sanitize(t: string): (r: string)
    ensures |r| == |t|
    ensures forall i :: 0 <= i < |t| ==> r[i] == if IsAsciiAlnum(t[i]) then t[i] else '-'
  {
    if t == [] then [] else [if IsAsciiAlnum(t[0]) then t[0] else '-'] + Sanitize(t[1..])
  }

  /** The sanitised target holds only letters, digits and '-', and
      sanitising twice changes nothing. */
  lemma SanitizeIdempotent(t: string)
    ensures forall i :: 0 <= i < |t| ==> IsAsciiAlnum(Sanitize(t)[i]) || Sanitize(t)[i] == '-'
    ensures Sanitize(Sanitize(t)) == Sanitize(t)
  {
    var r := Sanitize(t);
    var rr := Sanitize(r);
    forall i | 0 <= i < |t|
      ensures rr[i] == r[i]
    {
      assert IsAsciiAlnum(r[i]) || r[i] == '-';
    }
  }

  /** The target is kept as it is exactly when it is all letters, digits
      and '-'. */
  lemma SanitizeKeeps(t: string)
    ensures Sanitize(t) == t <==> forall i :: 0 <= i < |t| ==> IsAsciiAlnum(t[i]) || t[i] == '-'
  {
    if Sanitize(t) == t {
      forall i | 0 <= i < |t|
        ensures IsAsciiAlnum(t[i]) || t[i] == '-'
      {
        assert Sanitize(t)[i] == t[i];
      }
    }
  }

  /** `new Date().toISOString().split('T')[0]`, from the clock's ISO
      timestamp. */
  function DatePart(isoTimestamp: string): string
  {
    SplitOn(isoTimestamp, 'T')[0]
  }

  /** The `download` name of the CSV file. */
  function FileName(target: string, isoTimestamp: string): string
  {
    "link-scan-results-" + Sanitize(target) + "-" + DatePart(isoTimestamp) + ".csv"
  }

  /** The file is named after the target and the calendar date: for a
      timestamp `date + "T" + time`, the name is the fixed prefix, the
      sanitised target, '-', the date and ".csv". */
  lemma FileNameOf(target: string, date: string, time: string)
    requires 'T' !in date
    ensures FileName(target, date + "T" + time) == "link-scan-results-" + Sanitize(target) + "-" + date + ".csv"
  {
    var s := date + "T" + time;
    assert s[|date|] == 'T' && s[..|date|] == date;
  }

  /** A file name is made of letters, digits, '-' and '.' whenever the
      date is (as an ISO date is): no path separator or other character
      from the target reaches it. */
  lemma FileNameIsPlain(target: string, date: string, time: string, k: nat)
    requires 'T' !in date
    requires forall i :: 0 <= i < |date| ==> IsAsciiAlnum(date[i]) || date[i] == '-'
    requires k < |FileName(target, date + "T" + time)|
    ensures var c := FileName(target, date + "T" + time)[k];
      IsAsciiAlnum(c) || c == '-' || c == '.'
  {
    FileNameOf(target, date, time);
    SanitizeIdempotent(target);
    NamePartsArePlain(Sanitize(target), date, k);
  }

  /** The characters of a name built from plain parts. */
  lemma NamePartsArePlain(s: string, date: string, k: nat)
    requires forall i :: 0 <= i < |s| ==> IsAsciiAlnum(s[i]) || s[i] == '-'
    requires forall i :: 0 <= i < |date| ==> IsAsciiAlnum(date[i]) || date[i] == '-'
    requires k < |"link-scan-results-" + s + "-" + date + ".csv"|
    ensures var c := ("link-scan-results-" + s + "-" + date + ".csv")[k];
      IsAsciiAlnum(c) || c == '-' || c == '.'
  {
    var p := "link-scan-results-";
    var n := p + s + "-" + date + ".csv";
    if k < |p| {
      assert n[k] == p[k];
    } else if k < |p| + |s| {
      assert n[k] == s[k - |p|];
    } else if k == |p| + |s| {
    } else if k < |p| + |s| + 1 + |date| {
      assert n[k] == date[k - |p| - |s| - 1];
    } else {
      assert n[k] == ".csv"[k - |p| - |s| - 1 - |date|];
    }
  }

  datatype Download = Download(fileName: string, content: string)

  /** `exportResultsToCSV(links, target)`: nothing to download for an
      empty list ("No results to export"), else the CSV file. */
  function ExportCsv(links: seq<Link>, target: string, isoTimestamp: string): (r: Option<Download>)
    ensures r.None? <==> links == []
    ensures r.Some? ==> r.value.fileName == FileName(target, isoTimestamp)
    ensures r.Some? && (forall k :: 0 <= k < |links| ==> PlainLink(links[k])) ==>
      ParseCsv(r.value.content) == Some(Rows(links))
  {
    if links == [] then None
    else
      CsvRoundTripWhenPlain(links);
      Some(Download(FileName(target, isoTimestamp), CsvContent(links)))
  }

  lemma CsvRoundTripWhenPlain(links: seq<Link>)
    ensures (forall k :: 0 <= k < |links| ==> PlainLink(links[k])) ==>
      ParseCsv(CsvContent(links)) == Some(Rows(links))
  {
    if forall k :: 0 <= k < |links| ==> PlainLink(links[k]) {
      CsvRoundTrip(links);
    }
  }
}
