/** The popup's helpers (popup.js): the URL shortening and status icons of
    its link list, whether the "check" button is enabled for the active
    tab, the validation of the maximum-depth input and the query of the
    report page it opens. Parsing a URL with `new URL` and reading its
    `target` search parameter is an input (`TargetParam`). */
module Popup {
  import opened Strings

  // ---------------------------------------------------------------------
  // truncateUrl

  /** `truncateUrl(url)`: URLs of up to 50 characters are shown whole,
      longer ones as their first 47 characters and "...". */
  function TruncateUrl(url: string): (r: string)
    ensures |r| <= 50
    ensures |url| <= 50 ==> r == url
    ensures |url| > 50 ==> |r| == 50 && r[..47] == url[..47] && r[47..] == "..."
  {
    if |url| <= 50 then url else url[..47] + "..."
  }

  /** A URL is shown unchanged exactly when it is short enough, and
      shortening a shortened URL changes nothing. */
  lemma TruncateFixedPoints(url: string)
    ensures TruncateUrl(url) == url <==> |url| <= 50
    ensures TruncateUrl(TruncateUrl(url)) == TruncateUrl(url)
  {
  }

  /** Two long URLs that agree on their first 47 characters are shown
      alike: the display loses everything after them. */
  lemma TruncateForgetsTail(u: string, v: string)
    requires |u| > 50 && |v| > 50 && u[..47] == v[..47]
    ensures TruncateUrl(u) == TruncateUrl(v)
  {
  }

  // ---------------------------------------------------------------------
  // getStatusIcon

  // The icon literals as they stand in the file: UTF-8 emoji bytes that
  // were decoded as Mac Roman when the file was saved, so each icon is a
  // short run of Latin and symbol characters.
  const WorkingIcon: string := "\U{201A}\U{00FA}\U{00D6}"
  const BrokenIcon: string := "\U{201A}\U{00F9}\U{00E5}"
  const CheckingIcon: string := "\U{F8FF}\U{00FC}\U{00EE}\U{00D1}"
  const DefaultIcon: string := "\U{201A}\U{2260}\U{00EF}"

  /** `getStatusIcon(status)` */
  function StatusIcon(status: string): (r: string)
    ensures r == WorkingIcon <==> status == "working"
    ensures r == BrokenIcon <==> status == "broken"
    ensures r == CheckingIcon <==> status == "checking"
    ensures r == DefaultIcon <==> status !in {"working", "broken", "checking"}
  {
    IconsDistinct();
    if status == "working" then WorkingIcon
    else if status == "broken" then BrokenIcon
    else if status == "checking" then CheckingIcon
    else DefaultIcon
  }

  /** The four icons differ pairwise. */
  lemma IconsDistinct()
    ensures WorkingIcon != BrokenIcon && WorkingIcon != CheckingIcon && WorkingIcon != DefaultIcon
    ensures BrokenIcon != CheckingIcon && BrokenIcon != DefaultIcon
    ensures CheckingIcon != DefaultIcon
  {
    assert WorkingIcon[1] != BrokenIcon[1] && WorkingIcon[1] != DefaultIcon[1];
    assert BrokenIcon[1] != DefaultIcon[1];
    assert |CheckingIcon| != |WorkingIcon| && |CheckingIcon| != |BrokenIcon| && |CheckingIcon| != |DefaultIcon|;
  }

  /** The icon tells the three known statuses apart from each other and
      from every other status. */
  lemma StatusIconSeparates(a: string, b: string)
    requires a in {"working", "broken", "checking"}
    ensures StatusIcon(a) == StatusIcon(b) <==> a == b
  {
  }

  // ---------------------------------------------------------------------
  // updateCheckButtonState

  /** The active tab as `chrome.tabs.query` reports it; a tab whose
      address the extension may not see has no url. */
  datatype Tab = Tab(url: Option<string>)

  /** What `new URL(tab.url).searchParams.get('target')` gives: the
      constructor throws, or the parameter is absent, or present. */
  datatype TargetParam = Unparsable | Target(value: Option<string>)

  /** What a call of `updateCheckButtonState` does: it sets the button's
      `disabled` property, or it throws before setting anything. */
  datatype ButtonUpdate = SetDisabled(disabled: bool) | TypeError

  /** The marker of the report page's own address. */
  predicate IsReportPage(url: string)
  {
    Contains(url, "devkit.free/plugin-scan")
  }

  /** On the report page: disabled unless the URL parses and carries a
      non-empty target. */
  function ReportPageDisabled(param: TargetParam): bool
  {
    match param
    case Unparsable => true
    case Target(t) => t == None || t == Some("")
  }

  /** Elsewhere: disabled for a missing or empty address and for the
      browser's own pages. */
  function OrdinaryPageDisabled(url: Option<string>): bool
  {
    url == None || url == Some("") ||
    StartsWith(url.value, "chrome://") || StartsWith(url.value, "chrome-extension://")
  }

  /** `updateCheckButtonState()` as written: the report-page test reads
      `currentTab.url.includes(…)` before any guard, so a missing tab or a
      tab without a url throws a TypeError there. */
  function CheckButtonAsWritten(tab: Option<Tab>, param: TargetParam): (r: ButtonUpdate)
    ensures r.TypeError? <==> tab == None || tab.value.url == None
  {
    match tab
    case None => TypeError
    case Some(Tab(url)) =>
      match url
      case None => TypeError
      case Some(u) =>
        if IsReportPage(u) then SetDisabled(ReportPageDisabled(param))
        else SetDisabled(OrdinaryPageDisabled(url))
  }

  /** `updateCheckButtonState()` with its guard against a missing tab or
      url taking effect: such a tab disables the button. */
  function CheckButtonState(tab: Option<Tab>, param: TargetParam): (r: ButtonUpdate)
    ensures r.SetDisabled?
    ensures tab == None || tab.value.url == None ==> r.disabled
    ensures tab.Some? && tab.value.url.Some? ==> r == CheckButtonAsWritten(tab, param)
  {
    match tab
    case None => SetDisabled(true)
    case Some(Tab(url)) =>
      if url == None then SetDisabled(true) else CheckButtonAsWritten(tab, param)
  }

  /** Off the report page, the button is disabled exactly when the address
      is missing or empty or the page is an internal browser page. */
  lemma OrdinaryPageButton(url: Option<string>, param: TargetParam)
    requires url.None? || !IsReportPage(url.value)
    ensures CheckButtonState(Some(Tab(url)), param).disabled <==>
      url == None || url.value == "" ||
      StartsWith(url.value, "chrome://") || StartsWith(url.value, "chrome-extension://")
  {
  }

  /** On the report page, the button is disabled exactly when the address
      cannot be parsed or has no non-empty `target` parameter. */
  lemma ReportPageButton(url: string, param: TargetParam)
    requires IsReportPage(url)
    ensures CheckButtonState(Some(Tab(Some(url))), param).disabled <==>
      param.Unparsable? || param.value == None || param.value.value == ""
  {
  }

  /** The case that shows the difference: a tab without a url. */
  lemma MissingUrlThrows(param: TargetParam)
    ensures CheckButtonAsWritten(Some(Tab(None)), param) == TypeError
    ensures CheckButtonState(Some(Tab(None)), param) == SetDisabled(true)
  {
  }

  // ---------------------------------------------------------------------
  // checkLinks: the maximum-depth check and the report page's query

  datatype DepthCheck = Accepted(maxDepth: nat) | Rejected(message: string)

  /** `parseInt(maxDepthInput.value)` and the test that follows it: NaN
      and negative numbers are refused with a message, 0 and up are kept. */
  function ValidateMaxDepth(input: string): (r: DepthCheck)
    ensures r.Rejected? <==> ParseInt(input) == None || ParseInt(input).value < 0
    ensures r.Accepted? ==> ParseInt(input) == Some(r.maxDepth)
    ensures r.Rejected? ==> r.message == "Maximum depth must be a number 0 or greater"
  {
    match ParseInt(input)
    case None => Rejected("Maximum depth must be a number 0 or greater")
    case Some(v) =>
      if v < 0 then Rejected("Maximum depth must be a number 0 or greater") else Accepted(v)
  }

  /** Every depth the popup writes as a decimal is accepted as itself,
      0 included. */
  lemma ValidateAcceptsDecimal(n: nat)
    ensures ValidateMaxDepth(NatToDecimal(n)) == Accepted(n)
  {
    ParseIntOfDecimal(n);
  }

  /** An empty field, and a leading minus sign on a digit, are refused. */
  lemma ValidateRejects(d: nat)
    requires 0 < d < 10
    ensures ValidateMaxDepth("").Rejected?
    ensures ValidateMaxDepth("-" + [DigitChar(d)]).Rejected?
  {
    var s := "-" + [DigitChar(d)];
    TrimStartKeeps(s);
    assert s[1..] == [DigitChar(d)];
    ParseSignedOfDigits(s[1..]);
    ParseDigitsOfDigits(s[1..]);
    assert DigitsValue([DigitChar(d)], 10) == d;
  }

  /** The three query parameters of the report page the popup opens. */
  datatype ScanQuery = ScanQuery(target: string, maxdepth: string, pagesonly: string)

  /** The target of the scan: on the report page its own non-empty
      `target` parameter, otherwise (or when that URL does not parse) the
      tab's address. */
  function ScanTarget(tabUrl: string, param: TargetParam): (t: string)
    ensures !IsReportPage(tabUrl) ==> t == tabUrl
    ensures t != tabUrl ==> param == Target(Some(t)) && t != ""
  {
    if IsReportPage(tabUrl) && param.Target? && param.value.Some? && param.value.value != "" then
      param.value.value
    else tabUrl
  }

  /** The query of the report page: `maxdepth=${maxDepth}` and
      `pagesonly=${scanPagesOnly}`, with the target handed over as it is
      (`encodeURIComponent` and the page's decoding are not part of this
      model). */
  function ScanQueryOf(tabUrl: string, param: TargetParam, maxDepth: nat, scanPagesOnly: bool): (q: ScanQuery)
    ensures q.target == ScanTarget(tabUrl, param)
    ensures q.pagesonly == "true" || q.pagesonly == "false"
    ensures q.pagesonly == "false" <==> !scanPagesOnly
    // the depth is written in decimal, and parseInt reads it back
    ensures q.maxdepth == NatToDecimal(maxDepth) && ParseInt(q.maxdepth) == Some(maxDepth)
  {
    ParseIntOfDecimal(maxDepth);
    ScanQuery(ScanTarget(tabUrl, param), NatToDecimal(maxDepth), if scanPagesOnly then "true" else "false")
  }
}
