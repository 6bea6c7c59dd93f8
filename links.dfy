/** The link record that the content script creates, the background worker
    resolves and the report page displays, and the outcome the session
    cache keeps per URL. */
module Links {
  import opened Strings

  /** `link.status`: 'unchecked' from the page scan, then 'working' or
      'broken' once resolved. */
  datatype LinkStatus = Unchecked | Working | Broken

  /** `link.type` */
  datatype LinkType = Page | Image | Css | Js

  function StatusName(s: LinkStatus): string
  {
    match s
    case Unchecked => "unchecked"
    case Working => "working"
    case Broken => "broken"
  }

  function TypeName(t: LinkType): (r: string)
    ensures r != []
  {
    match t
    case Page => "page"
    case Image => "image"
    case Css => "css"
    case Js => "js"
  }

  /** One discovered link. A field the script leaves undefined is None
      (or "" for foundOnPage, false for cached). */
  datatype Link = Link(
    url: string,
    text: string,
    kind: LinkType,
    foundOnPage: string,
    status: LinkStatus,
    statusCode: Option<int>,
    error: Option<string>,
    checkedAt: Option<int>,
    cached: bool)

  /** A link as the page scan emits it: nothing checked yet. */
  function Discovered(url: string, text: string, kind: LinkType): (l: Link)
    ensures l.url == url && l.text == text && l.kind == kind
    ensures l.status == Unchecked && !l.cached && l.checkedAt == None
  {
    Link(url, text, kind, "", Unchecked, None, None, None, false)
  }

  /** The value `linkCache.set(url, …)` stores: the four fields of the
      checked link, copied. */
  datatype CachedOutcome = CachedOutcome(
    status: LinkStatus,
    statusCode: Option<int>,
    error: Option<string>,
    checkedAt: Option<int>)
}
