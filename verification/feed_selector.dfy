/**
  The feed selector of the web UI (the `load_feed` script).

  `loadFeed(id)` replaces the `feedId` query parameter of the current URL and
  navigates there. On page load, the feeds listed by `/media/feeds` are added
  to the `feed-selector` element in the order received, and the option equal
  to the page's own `feedId` parameter is selected (its index offset by one,
  past the option the page starts with).
*/
module FeedSelector {
  import opened Wrappers
  import opened SearchParams

  const FeedIdParam: string := "feedId"

  /** A URL: everything but the query, and the query. */
  datatype Url = Url(rest: string, query: Query)

  /** `loadFeed(feedId)`: the URL navigated to. */
  function LoadFeed(current: Url, feedId: string): (r: Url)
    ensures r.rest == current.rest
  {
    Url(current.rest, SetParam(current.query, FeedIdParam, feedId))
  }

  /** The page reached through `loadFeed` carries exactly the chosen feed. */
  lemma LoadFeedSelects(current: Url, feedId: string, other: string)
    requires other != FeedIdParam
    ensures Get(LoadFeed(current, feedId).query, FeedIdParam) == Some(feedId)
    ensures Get(LoadFeed(current, feedId).query, other) == Get(current.query, other)
  {
    SetParamFacts(current.query, FeedIdParam, feedId, other);
  }

  /** An `<option>`: its value and its text. */
  datatype FeedOption = FeedOption(value: string, text: string)

  /**
    The selector: its options and the last index written to `selectedIndex`
    by the script (`None` while the script has written none).
  */
  datatype Selector = Selector(options: seq<FeedOption>, selected: Option<int>)

  /** The index of the last feed equal to the parameter, if any. */
  function LastMatch(feeds: seq<string>, param: Option<string>): (r: Option<nat>)
    ensures r.Some? ==> r.value < |feeds| && param == Some(feeds[r.value])
    ensures r.Some? ==> forall j :: r.value < j < |feeds| ==> param != Some(feeds[j])
    ensures r.None? ==> forall j :: 0 <= j < |feeds| ==> param != Some(feeds[j])
  {
    if |feeds| == 0 then None
    else if param == Some(feeds[|feeds| - 1]) then Some(|feeds| - 1)
    else LastMatch(feeds[..|feeds| - 1], param)
  }

  /**
    The `forEach` over the received feeds: each feed becomes an option whose
    value and text are the feed, appended in order; a feed equal to the
    parameter writes its position plus one to `selectedIndex`.
  */
  method PopulateSelector(s: Selector, feeds: seq<string>, param: Option<string>) returns (r: Selector)
    ensures |r.options| == |s.options| + |feeds|
    ensures r.options[..|s.options|] == s.options
    ensures forall i :: 0 <= i < |feeds| ==> r.options[|s.options| + i] == FeedOption(feeds[i], feeds[i])
    ensures r.selected == match LastMatch(feeds, param)
      case Some(i) => Some(i + 1)
      case None => s.selected
  {
    r := s;
    var idx := 0;
    while idx < |feeds|
      invariant 0 <= idx <= |feeds|
      invariant |r.options| == |s.options| + idx
      invariant r.options[..|s.options|] == s.options
      invariant forall i :: 0 <= i < idx ==> r.options[|s.options| + i] == FeedOption(feeds[i], feeds[i])
      invariant r.selected == match LastMatch(feeds[..idx], param)
        case Some(i) => Some(i + 1)
        case None => s.selected
    {
      var feed := feeds[idx];
      r := r.(options := r.options + [FeedOption(feed, feed)]);
      if Some(feed) == param {
        r := r.(selected := Some(idx + 1));
      }
      assert feeds[..idx + 1][..idx] == feeds[..idx];
      idx := idx + 1;
    }
    assert feeds[..idx] == feeds;
  }

  datatype LoadError = ResponseNotOk | BadFeedList

  /**
    The load handler: a response that is not OK throws before the list is
    read; a body `JSON.parse` rejects (`None`) throws before any option is
    added; otherwise the selector is filled.
  */
  method OnLoad(page: Url, s: Selector, responseOk: bool, body: Option<seq<string>>)
    returns (r: Result<Selector, LoadError>)
    ensures !responseOk ==> r == Failure(ResponseNotOk)
    ensures responseOk && body.None? ==> r == Failure(BadFeedList)
    ensures r.Success? ==>
      && responseOk && body.Some?
      && |r.value.options| == |s.options| + |body.value|
      && r.value.options[..|s.options|] == s.options
      && forall i :: 0 <= i < |body.value| ==>
        r.value.options[|s.options| + i] == FeedOption(body.value[i], body.value[i])
    ensures r.Success? ==> r.value.selected == match LastMatch(body.value, Get(page.query, FeedIdParam))
      case Some(i) => Some(i + 1)
      case None => s.selected
    ensures responseOk && body.Some? ==> r.Success?
  {
    if !responseOk {
      return Failure(ResponseNotOk);
    }
    if body.None? {
      return Failure(BadFeedList);
    }
    var filled := PopulateSelector(s, body.value, Get(page.query, FeedIdParam));
    return Success(filled);
  }

  /** Without a `feedId` parameter, or with no feed equal to it, the selection is left alone. */
  lemma NoMatchKeepsSelection(feeds: seq<string>, param: Option<string>)
    requires param.None? || forall j :: 0 <= j < |feeds| ==> feeds[j] != param.value
    ensures LastMatch(feeds, param).None?
  {
  }

  /** With duplicates, the last equal feed wins. */
  lemma LastDuplicateWins(feeds: seq<string>, param: string, i: nat, j: nat)
    requires i < j < |feeds| && feeds[i] == param && feeds[j] == param
    ensures LastMatch(feeds, Some(param)).Some? && LastMatch(feeds, Some(param)).value >= j
  {
  }
}
