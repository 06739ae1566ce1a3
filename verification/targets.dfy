/** Target selection (`get_ws_url`): from the debug listing, choose the tab
    whose protocol endpoint the bridge connects to. The listing itself is an
    input; fetching it over HTTP is not modelled. */
module Targets {
  import opened Prelude

  /** One record of the listing. A field is None when the record lacks it. */
  datatype Target = Target(
    kind: Option<string>,
    url: Option<string>,
    title: Option<string>,
    webSocketDebuggerUrl: Option<string>)

  /** The endpoint to connect to and the tab url reported back. */
  datatype Endpoint = Endpoint(webSocketUrl: string, url: string)

  datatype SelectError =
    | NoTabMatching(filter: string, available: seq<Option<string>>)
    | NoPageTargets
    | NoWebSocketUrl(url: Option<string>)

  /** `t.get("type") == "page"` */
  predicate IsPage(t: Target) {
    t.kind == Some("page")
  }

  function Pages(targets: seq<Target>): seq<Target> {
    Filter(targets, IsPage)
  }

  /** `[t.get("url") for t in pages]`, the list an unmatched filter reports. */
  function Urls(pages: seq<Target>): seq<Option<string>> {
    seq(|pages|, k requires 0 <= k < |pages| => pages[k].url)
  }

  /** `if tab_url_filter:` — an absent and an empty filter both mean "none". */
  predicate FilterGiven(filter: Option<string>) {
    filter.Some? && filter.value != ""
  }

  /** Case-insensitive substring match against the url, "" when absent. */
  predicate UrlMatches(filter: string, t: Target) {
    Contains(Lower(t.url.GetOr("")), Lower(filter))
  }

  /** Turns the chosen record into an endpoint; an absent or empty
      `webSocketDebuggerUrl` is an error, an absent url reads "unknown". */
  function Connect(t: Target): (r: Result<Endpoint, SelectError>)
    ensures r.Ok? <==> t.webSocketDebuggerUrl.Some? && t.webSocketDebuggerUrl.value != ""
    ensures r.Ok? ==> r.value.webSocketUrl == t.webSocketDebuggerUrl.value
    ensures r.Ok? ==> r.value.url == t.url.GetOr("unknown")
    ensures r.Err? ==> r.error == NoWebSocketUrl(t.url)
  {
    match t.webSocketDebuggerUrl
    case Some(ws) =>
      if ws == "" then Err(NoWebSocketUrl(t.url)) else Ok(Endpoint(ws, t.url.GetOr("unknown")))
    case None => Err(NoWebSocketUrl(t.url))
  }

  /** `get_ws_url`, with the listing passed in. */
  function SelectTarget(targets: seq<Target>, filter: Option<string>): Result<Endpoint, SelectError> {
    var pages := Pages(targets);
    if FilterGiven(filter) then
      var matching := Filter(pages, t => UrlMatches(filter.value, t));
      if |matching| == 0 then Err(NoTabMatching(filter.value, Urls(pages)))
      else Connect(matching[0])
    else if |pages| == 0 then Err(NoPageTargets)
    else Connect(pages[0])
  }

  // ---------------------------------------------------------------------
  // Reference definition: the first eligible record of the listing
  // ---------------------------------------------------------------------

  /** A record selection may choose under the given filter. */
  predicate Eligible(filter: Option<string>, t: Target) {
    IsPage(t) && (FilterGiven(filter) ==> UrlMatches(filter.value, t))
  }

  /** Index `i` holds the first eligible record in listing order. */
  predicate IsFirstEligible(targets: seq<Target>, filter: Option<string>, i: int) {
    && 0 <= i < |targets|
    && Eligible(filter, targets[i])
    && forall j :: 0 <= j < i ==> !Eligible(filter, targets[j])
  }

  /** The candidates `SelectTarget` picks the head of are the eligible
      records, in listing order. */
  lemma CandidatesAreEligible(targets: seq<Target>, filter: Option<string>)
    ensures FilterGiven(filter) ==>
      Filter(Pages(targets), t => UrlMatches(filter.value, t)) == Filter(targets, t => Eligible(filter, t))
    ensures !FilterGiven(filter) ==> Pages(targets) == Filter(targets, t => Eligible(filter, t))
  {
    if FilterGiven(filter) {
      FilterFilter(targets, IsPage, t => UrlMatches(filter.value, t), t => Eligible(filter, t));
    } else {
      FilterFilter(targets, IsPage, t => true, t => Eligible(filter, t));
      FilterKeepsAll(Pages(targets), t => true);
    }
  }

  /** Selection connects to the first eligible record of the listing. */
  lemma SelectsFirstEligible(targets: seq<Target>, filter: Option<string>, i: int)
    requires IsFirstEligible(targets, filter, i)
    ensures SelectTarget(targets, filter) == Connect(targets[i])
  {
    CandidatesAreEligible(targets, filter);
    FilterFirst(targets, t => Eligible(filter, t), i);
  }

  /** Without an eligible record, selection fails: with a filter it reports
      every page url in listing order, without one there were no pages. */
  lemma FailsWithoutEligible(targets: seq<Target>, filter: Option<string>)
    requires forall j :: 0 <= j < |targets| ==> !Eligible(filter, targets[j])
    ensures FilterGiven(filter) ==>
      SelectTarget(targets, filter) == Err(NoTabMatching(filter.value, Urls(Pages(targets))))
    ensures !FilterGiven(filter) ==> SelectTarget(targets, filter) == Err(NoPageTargets)
  {
    CandidatesAreEligible(targets, filter);
    FilterEmpty(targets, t => Eligible(filter, t));
  }

  /** The error of an unmatched filter lists the url of every page record,
      in listing order, one entry per page, and names the filter. */
  lemma UnmatchedFilterListsPages(targets: seq<Target>, filter: string)
    requires filter != ""
    requires forall j :: 0 <= j < |targets| ==> !(IsPage(targets[j]) && UrlMatches(filter, targets[j]))
    ensures SelectTarget(targets, Some(filter)).Err?
    ensures SelectTarget(targets, Some(filter)).error.NoTabMatching?
    ensures SelectTarget(targets, Some(filter)).error.filter == filter
    ensures var av := SelectTarget(targets, Some(filter)).error.available;
      && |av| == |Pages(targets)|
      && (forall k :: 0 <= k < |av| ==> av[k] == Pages(targets)[k].url)
      && (forall i :: 0 <= i < |targets| && IsPage(targets[i]) ==> targets[i].url in av)
  {
    assert forall j :: 0 <= j < |targets| ==> !Eligible(Some(filter), targets[j]);
    FailsWithoutEligible(targets, Some(filter));
    var av := Urls(Pages(targets));
    forall i | 0 <= i < |targets| && IsPage(targets[i])
      ensures targets[i].url in av
    {
      FilterKeeps(targets, IsPage, i);
      var k :| 0 <= k < |Pages(targets)| && Pages(targets)[k] == targets[i];
      assert av[k] == targets[i].url;
    }
  }

  /** Dropping a record that is not a page leaves the pages unchanged. */
  lemma PagesSkipNonPage(before: seq<Target>, t: Target, after: seq<Target>)
    requires !IsPage(t)
    ensures Pages(before + [t] + after) == Pages(before + after)
  {
    var pb, pa := Filter(before, IsPage), Filter(after, IsPage);
    assert Filter([t], IsPage) == [] by {
      assert [t][1..] == [];
    }
    FilterAppend(before, [t], IsPage);
    assert Filter(before + [t], IsPage) == pb;
    FilterAppend(before + [t], after, IsPage);
    FilterAppend(before, after, IsPage);
  }

  /** Records that are not pages never influence selection. */
  lemma IgnoresNonPages(before: seq<Target>, t: Target, after: seq<Target>, filter: Option<string>)
    requires !IsPage(t)
    ensures SelectTarget(before + [t] + after, filter) == SelectTarget(before + after, filter)
  {
    PagesSkipNonPage(before, t, after);
  }

  /** Once an eligible record exists, records listed after it never change
      the outcome. */
  lemma StableUnderAppend(targets: seq<Target>, more: seq<Target>, filter: Option<string>, i: int)
    requires IsFirstEligible(targets, filter, i)
    ensures SelectTarget(targets + more, filter) == SelectTarget(targets, filter)
  {
    SelectsFirstEligible(targets, filter, i);
    assert IsFirstEligible(targets + more, filter, i);
    SelectsFirstEligible(targets + more, filter, i);
  }

  /** The filter's letter case does not matter: two filters that agree
      once lower-cased select the same endpoint. */
  lemma CaseInsensitive(targets: seq<Target>, f: string, g: string)
    requires Lower(f) == Lower(g)
    ensures SelectTarget(targets, Some(f)).Ok? <==> SelectTarget(targets, Some(g)).Ok?
    ensures SelectTarget(targets, Some(f)).Ok? ==> SelectTarget(targets, Some(f)) == SelectTarget(targets, Some(g))
  {
    assert |f| == |Lower(f)| == |Lower(g)| == |g|;
    assert forall t :: Eligible(Some(f), t) == Eligible(Some(g), t);
    if j :| 0 <= j < |targets| && Eligible(Some(f), targets[j]) {
      var i := LeastEligible(targets, Some(f), j);
      assert IsFirstEligible(targets, Some(g), i);
      SelectsFirstEligible(targets, Some(f), i);
      SelectsFirstEligible(targets, Some(g), i);
    } else {
      FailsWithoutEligible(targets, Some(f));
      FailsWithoutEligible(targets, Some(g));
    }
  }

  /** The first eligible index at or before an eligible index `j`. */
  ghost function LeastEligible(targets: seq<Target>, filter: Option<string>, j: int): (k: int)
    requires 0 <= j < |targets| && Eligible(filter, targets[j])
    ensures IsFirstEligible(targets, filter, k)
    decreases j
  {
    if exists i :: 0 <= i < j && Eligible(filter, targets[i]) then
      var i :| 0 <= i < j && Eligible(filter, targets[i]);
      LeastEligible(targets, filter, i)
    else j
  }

  /** A filter given in capitals finds a tab whose url is lower case. */
  lemma UpperCaseFilterMatches()
    ensures UrlMatches("X.COM", Target(Some("page"), Some("https://x.com/home"), None, None))
  {
    var url := "https://x.com/home";
    assert Lower("X.COM") == "x.com";
    assert Lower(url) == url;
    assert OccursAt(url, "x.com", 8);
  }
}
