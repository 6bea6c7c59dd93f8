/** The content script (content.js): the link filter `shouldSkipLink` and
    the page scan `scanPage(scanPagesOnly)` that collects a page's links
    for the background worker. The class declares `scanPage` twice; the
    later definition (content.js:90) is the one in effect and the one
    modelled here. */
module Content {
  import opened Strings
  import opened Links

  // ---------------------------------------------------------------------
  // shouldSkipLink

  /** The schemes and same-page anchors that are never checked; the test
      is a case-sensitive prefix test. */
  predicate HasSkippedPrefix(href: string)
  {
    StartsWith(href, "#") || StartsWith(href, "javascript:") || StartsWith(href, "mailto:") ||
    StartsWith(href, "tel:") || StartsWith(href, "sms:")
  }

  const SkippedExtensions: seq<string> := [".pdf", ".doc", ".docx", ".xls", ".xlsx", ".zip", ".rar"]

  /** A download extension anywhere in the lower-cased href: a substring
      test, so "/a.pdf.html" and "/report.docs/" count as well. */
  predicate HasSkippedExtension(href: string)
  {
    exists i :: 0 <= i < |SkippedExtensions| && Contains(Lower(href), SkippedExtensions[i])
  }

  /** `shouldSkipLink(href)` */
  predicate ShouldSkipLink(href: string)
  {
    HasSkippedPrefix(href) || HasSkippedExtension(href)
  }

  lemma {:induction false} LowerIdempotent(s: string)
    ensures Lower(Lower(s)) == Lower(s)
  {
    assert forall i :: 0 <= i < |s| ==> LowerChar(LowerChar(s[i])) == LowerChar(s[i]);
  }

  /** The extension test ignores letter case: upper-casing ".PDF" does not
      hide it, and lower-casing the href first changes nothing. */
  lemma ExtensionTestIgnoresCase(href: string)
    ensures HasSkippedExtension(Lower(href)) == HasSkippedExtension(href)
  {
    LowerIdempotent(href);
  }

  lemma {:induction false} NoCharNoContains(s: string, t: string, c: char)
    requires c !in s && |t| > 0 && t[0] == c
    ensures !Contains(s, t)
    decreases |s|
  {
    if |s| > 0 {
      assert s[0] != c;
      assert c !in s[1..];
      NoCharNoContains(s[1..], t, c);
    }
  }

  /** Without a '.', only the prefix test can skip an href: every skipped
      extension begins with a dot. */
  lemma SkipWithoutDot(href: string)
    requires '.' !in href
    ensures ShouldSkipLink(href) <==> HasSkippedPrefix(href)
  {
    var low := Lower(href);
    assert '.' !in low by {
      forall k | 0 <= k < |low|
        ensures low[k] != '.'
      {
        assert low[k] == LowerChar(href[k]);
      }
    }
    forall i | 0 <= i < |SkippedExtensions|
      ensures !Contains(low, SkippedExtensions[i])
    {
      assert SkippedExtensions[i][0] == '.';
      NoCharNoContains(low, SkippedExtensions[i], '.');
    }
    assert !HasSkippedExtension(href);
  }

  lemma FirstCharDiffers(s: string, p: string)
    requires |s| > 0 && |p| > 0 && s[0] != p[0]
    ensures !StartsWith(s, p)
  {
    if |p| <= |s| {
      assert s[..|p|][0] == s[0];
    }
  }

  /** The prefix test is case-sensitive: "Mailto:" is not skipped, while
      "mailto:" is. */
  lemma PrefixTestIsCaseSensitive()
    ensures !ShouldSkipLink("Mailto:team")
    ensures ShouldSkipLink("mailto:team")
  {
    var s := "Mailto:team";
    SkipWithoutDot(s);
    FirstCharDiffers(s, "#");
    FirstCharDiffers(s, "javascript:");
    FirstCharDiffers(s, "mailto:");
    FirstCharDiffers(s, "tel:");
    FirstCharDiffers(s, "sms:");
    assert "mailto:team"[..7] == "mailto:";
  }

  /** The extensions are written in lower case. */
  lemma ExtensionIsLowerCase(i: nat, k: nat)
    requires i < |SkippedExtensions| && k < |SkippedExtensions[i]|
    ensures LowerChar(SkippedExtensions[i][k]) == SkippedExtensions[i][k]
  {
    var ext := SkippedExtensions[i];
    assert ext[k] == '.' || 'a' <= ext[k] <= 'z';
  }

  /** A download extension anywhere in an href skips it, not only at the
      end: "/a.pdf.html" and "/files.zip/index" are skipped. */
  lemma ExtensionAnywhereIsSkipped(before: string, i: nat, after: string)
    requires i < |SkippedExtensions|
    ensures ShouldSkipLink(before + SkippedExtensions[i] + after)
  {
    var ext := SkippedExtensions[i];
    var href := before + ext + after;
    var low := Lower(href);
    forall k | 0 <= k < |ext|
      ensures low[|before| + k] == ext[k]
    {
      assert href[|before| + k] == ext[k];
      ExtensionIsLowerCase(i, k);
    }
    assert low[|before|..|before| + |ext|] == ext;
    ContainsAt(low, ext, |before|);
  }

  // ---------------------------------------------------------------------
  // The document

  /** The elements the scan selects, as the DOM gives them: each carries
      its resolved URL property (`href` or `src`) and the attributes the
      scan reads. A title attribute that `getAttribute` does not find is
      None; the `alt` and `title` properties read "" when absent. */
  datatype Element =
    | Anchor(href: string, textContent: string, titleAttr: Option<string>)
    | Area(href: string, alt: string, title: string)
    | Img(src: string, alt: string, title: string)
    | LinkTag(href: string, rel: string)
    | Script(src: string)

  /** The five `querySelectorAll` passes, in the order the scan runs them. */
  datatype Pass = Anchors | Areas | Images | Stylesheets | Scripts

  /** `a[href]`, `area[href]`, `img[src]`, `link[href][rel="stylesheet"]`
      and `script[src]` */
  predicate Selects(pass: Pass, e: Element)
  {
    match pass
    case Anchors => e.Anchor?
    case Areas => e.Area?
    case Images => e.Img?
    case Stylesheets => e.LinkTag? && e.rel == "stylesheet"
    case Scripts => e.Script?
  }

  function UrlOf(e: Element): string
  {
    match e
    case Anchor(href, _, _) => href
    case Area(href, _, _) => href
    case Img(src, _, _) => src
    case LinkTag(href, _) => href
    case Script(src) => src
  }

  function KindOf(pass: Pass): LinkType
  {
    match pass
    case Anchors => Page
    case Areas => Page
    case Images => Image
    case Stylesheets => Css
    case Scripts => Js
  }

  /** Only the anchor and area passes consult shouldSkipLink. */
  predicate Filtered(pass: Pass)
  {
    pass == Anchors || pass == Areas
  }

  /** A JavaScript `a || b` on strings. */
  function Or(a: string, b: string): (r: string)
    ensures r == a || (a == "" && r == b)
  {
    if a != "" then a else b
  }

  /** The link text each pass records. */
  function TextOf(pass: Pass, e: Element): (t: string)
    requires Selects(pass, e)
    // only an element with an empty URL can have an empty text
    ensures UrlOf(e) != [] ==> t != []
    // stylesheets and scripts: a name without a '/', the last path segment
    // of the URL when that is not empty
    ensures pass == Stylesheets || pass == Scripts ==>
      t != [] && '/' !in t && (LastSegment(UrlOf(e)) != [] ==> t == LastSegment(UrlOf(e)))
  {
    match e
    case Anchor(href, text, title) => Or(Trim(text), Or(if title.Some? then title.value else "", href))
    case Area(href, alt, title) => Or(alt, Or(title, href))
    case Img(_, alt, title) => Or(alt, Or(title, "Image"))
    case LinkTag(href, _) => FallbackNames(); Or(LastSegment(href), "CSS file")
    case Script(src) => FallbackNames(); Or(LastSegment(src), "JavaScript file")
  }

  /** The fallback names of stylesheets and scripts hold no '/'. */
  lemma FallbackNames()
    ensures '/' !in "CSS file" && '/' !in "JavaScript file"
  {
    var css, js := "CSS file", "JavaScript file";
    assert forall i :: 0 <= i < |css| ==> css[i] != '/';
    assert forall i :: 0 <= i < |js| ==> js[i] != '/';
  }

  /** The link one element contributes to a pass, before deduplication:
      none when the pass does not select it or the filter skips it. */
  function Candidate(pass: Pass, e: Element): (r: Option<Link>)
    ensures r.Some? <==> Selects(pass, e) && !(Filtered(pass) && ShouldSkipLink(UrlOf(e)))
    ensures r.Some? ==> r.value == Discovered(UrlOf(e), TextOf(pass, e), KindOf(pass))
  {
    if Selects(pass, e) && !(Filtered(pass) && ShouldSkipLink(UrlOf(e))) then
      Some(Discovered(UrlOf(e), TextOf(pass, e), KindOf(pass)))
    else None
  }

  /** How a pass's link looks: unchecked, of the pass's type, and not
      skipped when the pass filters. */
  predicate FromPass(pass: Pass, l: Link)
  {
    l.kind == KindOf(pass) && l.status == Unchecked && !l.cached && l.checkedAt == None &&
    (Filtered(pass) ==> !ShouldSkipLink(l.url))
  }

  /** What each element of the document contributes to a pass. */
  function Options(pass: Pass, doc: seq<Element>): (os: seq<Option<Link>>)
    ensures |os| == |doc|
  {
    seq(|doc|, i requires 0 <= i < |doc| => Candidate(pass, doc[i]))
  }

  /** The present values of a sequence of options, in order. */
  function Somes<T>(os: seq<Option<T>>): (r: seq<T>)
    ensures |r| <= |os|
  {
    if os == [] then []
    else
      var init := Somes(os[..|os| - 1]);
      match os[|os| - 1]
      case None => init
      case Some(x) => init + [x]
  }

  /** Every present value is kept, and nothing else is. */
  lemma {:induction false} SomesHas<T>(os: seq<Option<T>>, j: nat) returns (k: nat)
    requires j < |os| && os[j].Some?
    ensures k <= j && k < |Somes(os)| && Somes(os)[k] == os[j].value
  {
    var init := Somes(os[..|os| - 1]);
    if j < |os| - 1 {
      assert os[..|os| - 1][j] == os[j];
      k := SomesHas(os[..|os| - 1], j);
    } else {
      k := |init|;
    }
  }

  lemma {:induction false} SomesFrom<T>(os: seq<Option<T>>, k: nat) returns (j: nat)
    requires k < |Somes(os)|
    ensures k <= j < |os| && os[j] == Some(Somes(os)[k])
  {
    var init := Somes(os[..|os| - 1]);
    if k < |init| {
      j := SomesFrom(os[..|os| - 1], k);
      assert os[..|os| - 1][j] == os[j];
    } else {
      j := |os| - 1;
    }
  }

  /** The candidates of one pass over the document, in document order. */
  function Candidates(pass: Pass, doc: seq<Element>): (r: seq<Link>)
    ensures |r| <= |doc|
  {
    Somes(Options(pass, doc))
  }

  /** Every candidate of a pass comes from some element, no earlier in the
      document than its own position, and looks like one of that pass. */
  lemma CandidatesFrom(pass: Pass, doc: seq<Element>, k: nat) returns (j: nat)
    requires k < |Candidates(pass, doc)|
    ensures k <= j < |doc| && Candidate(pass, doc[j]) == Some(Candidates(pass, doc)[k])
    ensures FromPass(pass, Candidates(pass, doc)[k])
  {
    j := SomesFrom(Options(pass, doc), k);
  }

  /** Every element the pass selects and does not skip is a candidate,
      at a position no later than its own. */
  lemma CandidatesHas(pass: Pass, doc: seq<Element>, j: nat) returns (k: nat)
    requires j < |doc| && Candidate(pass, doc[j]).Some?
    ensures k <= j && k < |Candidates(pass, doc)| && Candidates(pass, doc)[k] == Candidate(pass, doc[j]).value
  {
    k := SomesHas(Options(pass, doc), j);
  }

  /** One element more gives its candidate, if any, last (j is i + 1). */
  lemma CandidatesSnoc(pass: Pass, doc: seq<Element>, i: nat, j: nat)
    requires j == i + 1 <= |doc|
    ensures Candidates(pass, doc[..j]) ==
      if Candidate(pass, doc[i]).Some? then Candidates(pass, doc[..i]) + [Candidate(pass, doc[i]).value]
      else Candidates(pass, doc[..i])
  {
    var os := Options(pass, doc[..j]);
    assert os[..i] == Options(pass, doc[..i]);
    assert os[i] == Candidate(pass, doc[i]);
  }

  // ---------------------------------------------------------------------
  // Deduplication by exact URL, over any element type with a key

  /** The keys of a list. */
  function KeysOf<T>(ls: seq<T>, key: T -> string): set<string>
  {
    if ls == [] then {} else KeysOf(ls[..|ls| - 1], key) + {key(ls[|ls| - 1])}
  }

  /** The key of every element is among the keys. */
  lemma {:induction false} KeysOfHas<T>(ls: seq<T>, key: T -> string, j: nat)
    requires j < |ls|
    ensures key(ls[j]) in KeysOf(ls, key)
  {
    if j < |ls| - 1 {
      var init := ls[..|ls| - 1];
      assert init[j] == ls[j];
      KeysOfHas(init, key, j);
    }
  }

  /** Every key is the key of some element. */
  lemma {:induction false} KeysOfWitness<T>(ls: seq<T>, key: T -> string, u: string) returns (j: nat)
    requires u in KeysOf(ls, key)
    ensures j < |ls| && key(ls[j]) == u
  {
    var init := ls[..|ls| - 1];
    if u in KeysOf(init, key) {
      j := KeysOfWitness(init, key, u);
      assert init[j] == ls[j];
    } else {
      j := |ls| - 1;
    }
  }

  lemma KeysOfSnoc<T>(ls: seq<T>, x: T, key: T -> string)
    ensures KeysOf(ls + [x], key) == KeysOf(ls, key) + {key(x)}
  {
    assert (ls + [x])[..|ls|] == ls;
  }

  predicate UniqueKeys<T>(ls: seq<T>, key: T -> string)
  {
    forall i, j :: 0 <= i < j < |ls| ==> key(ls[i]) != key(ls[j])
  }

  /** The position of the first element with key u, or |ls| when there
      is none. */
  function FirstIndex<T>(ls: seq<T>, key: T -> string, u: string): (j: nat)
    ensures j <= |ls|
    ensures j < |ls| ==> key(ls[j]) == u
    ensures forall i :: 0 <= i < j ==> key(ls[i]) != u
  {
    if ls == [] then 0
    else
      var init := ls[..|ls| - 1];
      assert forall i :: 0 <= i < |ls| - 1 ==> init[i] == ls[i];
      var f := FirstIndex(init, key, u);
      if f < |init| then f else if key(ls[|ls| - 1]) == u then |ls| - 1 else |ls|
  }

  lemma FirstIndexSnoc<T>(ls: seq<T>, x: T, key: T -> string, u: string)
    ensures FirstIndex(ls + [x], key, u) ==
      if FirstIndex(ls, key, u) < |ls| then FirstIndex(ls, key, u) else if key(x) == u then |ls| else |ls| + 1
  {
    assert (ls + [x])[..|ls|] == ls;
  }

  /** A key missing from a list has no first position in it. */
  lemma FirstIndexAbsent<T>(ls: seq<T>, key: T -> string, u: string)
    requires u !in KeysOf(ls, key)
    ensures FirstIndex(ls, key, u) == |ls|
  {
    var f := FirstIndex(ls, key, u);
    if f < |ls| {
      KeysOfHas(ls, key, f);
    }
  }

  lemma SnocAssoc<T>(a: seq<T>, b: seq<T>, x: T)
    ensures a + (b + [x]) == (a + b) + [x]
  {
  }

  /** The `processedUrls` deduplication: an element whose key was seen
      before is dropped. */
  function FirstByKey<T>(ls: seq<T>, key: T -> string): (r: seq<T>)
    ensures |r| <= |ls|
  {
    if ls == [] then []
    else
      var p := FirstByKey(ls[..|ls| - 1], key);
      if key(ls[|ls| - 1]) in KeysOf(p, key) then p else p + [ls[|ls| - 1]]
  }

  /** The deduplication leaves every key once, and loses none. */
  lemma {:induction false} FirstByKeyUnique<T>(ls: seq<T>, key: T -> string)
    ensures UniqueKeys(FirstByKey(ls, key), key)
    ensures KeysOf(FirstByKey(ls, key), key) == KeysOf(ls, key)
  {
    if ls != [] {
      var init := ls[..|ls| - 1];
      var last := ls[|ls| - 1];
      var p := FirstByKey(init, key);
      FirstByKeyUnique(init, key);
      KeysOfSnoc(init, last, key);
      assert init + [last] == ls;
      if key(last) !in KeysOf(p, key) {
        KeysOfSnoc(p, last, key);
        UniqueKeysSnoc(p, last, key);
      }
    }
  }

  /** Appending an element with a new key keeps the keys unique. */
  lemma UniqueKeysSnoc<T>(ls: seq<T>, x: T, key: T -> string)
    requires UniqueKeys(ls, key) && key(x) !in KeysOf(ls, key)
    ensures UniqueKeys(ls + [x], key)
  {
    var r := ls + [x];
    forall i, j | 0 <= i < j < |r|
      ensures key(r[i]) != key(r[j])
    {
      if j == |ls| {
        assert r[i] == ls[i];
        KeysOfHas(ls, key, i);
      } else {
        assert r[i] == ls[i] && r[j] == ls[j];
      }
    }
  }

  lemma FirstByKeySnoc<T>(ls: seq<T>, x: T, key: T -> string)
    ensures FirstByKey(ls + [x], key) ==
      if key(x) in KeysOf(ls, key) then FirstByKey(ls, key) else FirstByKey(ls, key) + [x]
  {
    assert (ls + [x])[..|ls|] == ls;
  }

  /** The last step of FirstIndex: a key first found in ls without its
      last element keeps its position. */
  lemma FirstIndexLast<T>(ls: seq<T>, key: T -> string, u: string)
    requires ls != []
    ensures var init := ls[..|ls| - 1];
      FirstIndex(ls, key, u) ==
        if FirstIndex(init, key, u) < |init| then FirstIndex(init, key, u)
        else if key(ls[|ls| - 1]) == u then |init| else |ls|
  {
  }

  /** The last step of FirstByKey. */
  lemma FirstByKeyLast<T>(ls: seq<T>, key: T -> string)
    requires ls != []
    ensures var init := ls[..|ls| - 1];
      FirstByKey(ls, key) ==
        if key(ls[|ls| - 1]) in KeysOf(init, key) then FirstByKey(init, key)
        else FirstByKey(init, key) + [ls[|ls| - 1]]
  {
    FirstByKeyUnique(ls[..|ls| - 1], key);
  }

  /** Of the elements sharing a key only the first is kept. */
  lemma {:induction false} FirstByKeyKeepsFirst<T>(ls: seq<T>, key: T -> string, k: nat)
    requires k < |FirstByKey(ls, key)|
    ensures var r := FirstByKey(ls, key);
      FirstIndex(ls, key, key(r[k])) < |ls| && r[k] == ls[FirstIndex(ls, key, key(r[k]))]
  {
    var init := ls[..|ls| - 1];
    var last := ls[|ls| - 1];
    FirstByKeyLast(ls, key);
    var p := FirstByKey(init, key);
    if k < |p| {
      FirstByKeyKeepsFirst(init, key, k);
      FirstIndexLast(ls, key, key(p[k]));
    } else {
      FirstIndexAbsent(init, key, key(last));
      FirstIndexLast(ls, key, key(last));
    }
  }

  /** An element kept from all but the last element keeps its first
      position. */
  lemma FirstIndexOfKept<T>(ls: seq<T>, key: T -> string, k: nat)
    requires ls != [] && k < |FirstByKey(ls[..|ls| - 1], key)|
    ensures var init := ls[..|ls| - 1];
      var u := key(FirstByKey(init, key)[k]);
      FirstIndex(ls, key, u) == FirstIndex(init, key, u) < |init|
  {
    var init := ls[..|ls| - 1];
    FirstByKeyKeepsFirst(init, key, k);
    FirstIndexLast(ls, key, key(FirstByKey(init, key)[k]));
  }

  /** The kept elements keep the order of their first occurrences. */
  lemma {:induction false} FirstByKeyKeepsOrder<T>(ls: seq<T>, key: T -> string, k1: nat, k2: nat)
    requires k1 < k2 < |FirstByKey(ls, key)|
    ensures var r := FirstByKey(ls, key);
      FirstIndex(ls, key, key(r[k1])) < FirstIndex(ls, key, key(r[k2]))
  {
    var init := ls[..|ls| - 1];
    var last := ls[|ls| - 1];
    var r := FirstByKey(ls, key);
    var p := FirstByKey(init, key);
    FirstByKeyLast(ls, key);
    assert k1 < |p| && r[k1] == p[k1];
    FirstIndexOfKept(ls, key, k1);
    if k2 < |p| {
      assert r[k2] == p[k2];
      FirstByKeyKeepsOrder(init, key, k1, k2);
      FirstIndexOfKept(ls, key, k2);
    } else {
      assert r == p + [last] && r[k2] == last;
      FirstIndexAbsent(init, key, key(last));
      FirstIndexLast(ls, key, key(last));
    }
  }

  /** Every key of the list survives the deduplication, carried by the
      first element with that key. */
  lemma FirstByKeyKeepsAll<T>(ls: seq<T>, key: T -> string, j: nat)
    requires j < |ls|
    ensures key(ls[j]) in KeysOf(FirstByKey(ls, key), key)
    ensures FirstIndex(ls, key, key(ls[j])) <= j && ls[FirstIndex(ls, key, key(ls[j]))] in FirstByKey(ls, key)
  {
    var r := FirstByKey(ls, key);
    var u := key(ls[j]);
    KeysOfHas(ls, key, j);
    FirstByKeyUnique(ls, key);
    var k := KeysOfWitness(r, key, u);
    FirstByKeyKeepsFirst(ls, key, k);
  }

  /** The key scanPage deduplicates links by. */
  function Url(l: Link): string
  {
    l.url
  }

  // ---------------------------------------------------------------------
  // scanPage

  /** The passes a scan runs: links only, or also resources. */
  function PassesFor(scanPagesOnly: bool): (ps: seq<Pass>)
    ensures Anchors in ps && Areas in ps
    ensures scanPagesOnly <==> forall i :: 0 <= i < |ps| ==> Filtered(ps[i])
  {
    if scanPagesOnly then [Anchors, Areas]
    else
      var ps := [Anchors, Areas, Images, Stylesheets, Scripts];
      assert !Filtered(ps[2]);
      ps
  }

  /** The candidates of the given passes, pass after pass. */
  function AllCandidates(ps: seq<Pass>, doc: seq<Element>): (r: seq<Link>)
  {
    if ps == [] then [] else AllCandidates(ps[..|ps| - 1], doc) + Candidates(ps[|ps| - 1], doc)
  }

  /** Every candidate comes from one of the passes. */
  lemma {:induction false} AllCandidatesFrom(ps: seq<Pass>, doc: seq<Element>, k: nat) returns (i: nat)
    requires k < |AllCandidates(ps, doc)|
    ensures i < |ps| && FromPass(ps[i], AllCandidates(ps, doc)[k])
  {
    var init := AllCandidates(ps[..|ps| - 1], doc);
    if k < |init| {
      i := AllCandidatesFrom(ps[..|ps| - 1], doc, k);
      assert ps[..|ps| - 1][i] == ps[i];
    } else {
      i := |ps| - 1;
      var _ := CandidatesFrom(ps[i], doc, k - |init|);
    }
  }

  lemma AllCandidatesSnoc(ps: seq<Pass>, pass: Pass, doc: seq<Element>)
    ensures AllCandidates(ps + [pass], doc) == AllCandidates(ps, doc) + Candidates(pass, doc)
  {
    assert (ps + [pass])[..|ps|] == ps;
  }

  /** The links the scan reports (before the position sort). */
  function Extracted(doc: seq<Element>, scanPagesOnly: bool): seq<Link>
  {
    FirstByKey(AllCandidates(PassesFor(scanPagesOnly), doc), Url)
  }

  /** What the scan reports: every link unchecked, page links never of a
      skipped kind, and only page links when scanning pages only (and, by
      FirstByKey, every URL once). */
  lemma ExtractedShape(doc: seq<Element>, scanPagesOnly: bool, k: nat)
    requires k < |Extracted(doc, scanPagesOnly)|
    ensures var l := Extracted(doc, scanPagesOnly)[k];
      && l.status == Unchecked && !l.cached
      && (l.kind == Page ==> !ShouldSkipLink(l.url))
      && (scanPagesOnly ==> l.kind == Page)
  {
    var ps := PassesFor(scanPagesOnly);
    var i := ExtractedFrom(doc, scanPagesOnly, k);
    var l := Extracted(doc, scanPagesOnly)[k];
    assert FromPass(ps[i], l);
    assert scanPagesOnly ==> Filtered(ps[i]);
    PageKindIsFiltered(ps[i]);
  }

  /** Only the anchor and area passes give page links, and both filter. */
  lemma PageKindIsFiltered(pass: Pass)
    ensures KindOf(pass) == Page <==> Filtered(pass)
  {
  }

  /** Each reported link is the first candidate with its URL, so it comes
      from one of the passes run. */
  lemma ExtractedFrom(doc: seq<Element>, scanPagesOnly: bool, k: nat) returns (i: nat)
    requires k < |Extracted(doc, scanPagesOnly)|
    ensures i < |PassesFor(scanPagesOnly)| && FromPass(PassesFor(scanPagesOnly)[i], Extracted(doc, scanPagesOnly)[k])
  {
    var ps := PassesFor(scanPagesOnly);
    var all := AllCandidates(ps, doc);
    FirstByKeyKeepsFirst(all, Url, k);
    var l := FirstByKey(all, Url)[k];
    var j := FirstIndex(all, Url, Url(l));
    assert l == all[j];
    i := AllCandidatesFrom(ps, doc, j);
  }

  lemma {:induction false} AllCandidatesHas(ps: seq<Pass>, doc: seq<Element>, i: nat, l: Link)
    requires i < |ps| && l in Candidates(ps[i], doc)
    ensures l in AllCandidates(ps, doc)
  {
    if i < |ps| - 1 {
      assert ps[..|ps| - 1][i] == ps[i];
      AllCandidatesHas(ps[..|ps| - 1], doc, i, l);
    }
  }

  /** Nothing the scan selects and does not skip is lost: its URL is
      reported, by the first link found with that URL. */
  lemma ExtractedComplete(doc: seq<Element>, scanPagesOnly: bool, pass: Pass, j: nat)
    requires j < |doc| && pass in PassesFor(scanPagesOnly)
    requires Selects(pass, doc[j]) && !(Filtered(pass) && ShouldSkipLink(UrlOf(doc[j])))
    ensures UrlOf(doc[j]) in KeysOf(Extracted(doc, scanPagesOnly), Url)
  {
    var ps := PassesFor(scanPagesOnly);
    var l := Candidate(pass, doc[j]).value;
    var i :| 0 <= i < |ps| && ps[i] == pass;
    var k := CandidatesHas(pass, doc, j);
    assert Candidates(pass, doc)[k] == l;
    AllCandidatesHas(ps, doc, i, l);
    var all := AllCandidates(ps, doc);
    var n :| 0 <= n < |all| && all[n] == l;
    FirstByKeyKeepsAll(all, Url, n);
  }

  /** One `forEach` pass of `scanPage`: each selected element whose URL
      is not yet in processedUrls (and, for anchors and areas, is not
      skipped) is appended and its URL recorded. */
  method CollectPass(pass: Pass, doc: seq<Element>, links: seq<Link>, processed: set<string>,
                     ghost before: seq<Link>)
    returns (links': seq<Link>, processed': set<string>)
    requires links == FirstByKey(before, Url) && processed == KeysOf(links, Url)
    ensures links' == FirstByKey(before + Candidates(pass, doc), Url) && processed' == KeysOf(links', Url)
  {
    links', processed' := links, processed;
    var i := 0;
    ghost var seen := before;
    assert doc[..0] == [];
    while i < |doc|
      invariant 0 <= i <= |doc|
      invariant seen == before + Candidates(pass, doc[..i])
      invariant links' == FirstByKey(seen, Url) && processed' == KeysOf(links', Url)
    {
      var c := Candidate(pass, doc[i]);
      DedupStep(seen, c, links', processed');
      ghost var k, prev := i, seen;
      i := i + 1;
      seen := before + Candidates(pass, doc[..i]);
      SeenSnoc(pass, doc, before, k, i, prev, c);
      if c.Some? && c.value.url !in processed' {
        processed' := processed' + {c.value.url};
        links' := links' + [c.value];
      }
    }
    assert doc[..i] == doc;
  }

  /** One candidate further: it is kept, and its URL recorded, exactly
      when its URL was not seen before. */
  lemma DedupStep(seen: seq<Link>, c: Option<Link>, links: seq<Link>, processed: set<string>)
    requires links == FirstByKey(seen, Url) && processed == KeysOf(links, Url)
    ensures var keep := c.Some? && c.value.url !in processed;
      var links' := if keep then links + [c.value] else links;
      && FirstByKey(if c.Some? then seen + [c.value] else seen, Url) == links'
      && KeysOf(links', Url) == if keep then processed + {c.value.url} else processed
  {
    if c.Some? {
      FirstByKeyUnique(seen, Url);
      FirstByKeySnoc(seen, c.value, Url);
      KeysOfSnoc(links, c.value, Url);
    }
  }

  /** The candidates seen after one element more (j is i + 1). */
  lemma SeenSnoc(pass: Pass, doc: seq<Element>, before: seq<Link>, i: nat, j: nat,
                 seen: seq<Link>, c: Option<Link>)
    requires j == i + 1 <= |doc|
    requires seen == before + Candidates(pass, doc[..i]) && c == Candidate(pass, doc[i])
    ensures before + Candidates(pass, doc[..j]) == if c.Some? then seen + [c.value] else seen
  {
    CandidatesSnoc(pass, doc, i, j);
    if c.Some? {
      SnocAssoc(before, Candidates(pass, doc[..i]), c.value);
    }
  }

  /** `scanPage(scanPagesOnly)`: anchors and area links always, images,
      stylesheets and scripts unless scanning pages only, each URL once. The
      canonical URL is read from the document unchanged. */
  method ScanPage(doc: seq<Element>, canonicalUrl: Option<string>, scanPagesOnly: bool)
    returns (links: seq<Link>, canonical: Option<string>)
    ensures links == Extracted(doc, scanPagesOnly) && canonical == canonicalUrl
  {
    canonical := canonicalUrl;
    var processed: set<string> := {};
    links := [];
    ghost var seen: seq<Link> := [];
    links, processed := CollectPass(Anchors, doc, links, processed, seen);
    seen := seen + Candidates(Anchors, doc);
    links, processed := CollectPass(Areas, doc, links, processed, seen);
    seen := seen + Candidates(Areas, doc);
    if !scanPagesOnly {
      links, processed := CollectPass(Images, doc, links, processed, seen);
      seen := seen + Candidates(Images, doc);
      links, processed := CollectPass(Stylesheets, doc, links, processed, seen);
      seen := seen + Candidates(Stylesheets, doc);
      links, processed := CollectPass(Scripts, doc, links, processed, seen);
      seen := seen + Candidates(Scripts, doc);
    }
    PassesCandidates(doc, scanPagesOnly);
  }

  /** The candidates of the passes a scan runs, pass after pass. */
  lemma PassesCandidates(doc: seq<Element>, scanPagesOnly: bool)
    ensures AllCandidates(PassesFor(scanPagesOnly), doc) ==
      if scanPagesOnly then
        [] + Candidates(Anchors, doc) + Candidates(Areas, doc)
      else
        [] + Candidates(Anchors, doc) + Candidates(Areas, doc) + Candidates(Images, doc) +
          Candidates(Stylesheets, doc) + Candidates(Scripts, doc)
  {
    AllCandidatesSnoc([], Anchors, doc);
    assert [] + [Anchors] == [Anchors];
    AllCandidatesSnoc([Anchors], Areas, doc);
    assert [Anchors] + [Areas] == [Anchors, Areas];
    if !scanPagesOnly {
      AllCandidatesSnoc([Anchors, Areas], Images, doc);
      assert [Anchors, Areas] + [Images] == [Anchors, Areas, Images];
      AllCandidatesSnoc([Anchors, Areas, Images], Stylesheets, doc);
      assert [Anchors, Areas, Images] + [Stylesheets] == [Anchors, Areas, Images, Stylesheets];
      AllCandidatesSnoc([Anchors, Areas, Images, Stylesheets], Scripts, doc);
      assert [Anchors, Areas, Images, Stylesheets] + [Scripts] == [Anchors, Areas, Images, Stylesheets, Scripts];
    }
  }

  /** The message handler's `message.scanPagesOnly !== false`: anything but
      an explicit false (an absent field included) scans pages only. */
  function ScanPagesOnlyOf(field: Option<bool>): (b: bool)
    ensures !b <==> field == Some(false)
  {
    field != Some(false)
  }
}
