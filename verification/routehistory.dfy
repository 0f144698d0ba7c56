/** The client's in-app navigation history (`RouteHistoryProvider`): a list of visited paths that
    starts with the current path, grows on each completed route change, shrinks on browser back
    navigation, and lets a caller remove an entry by index. */
module RouteHistory {

  type History = seq<string>

  /** The state the provider is mounted with. */
  function Initial(currentPath: string): (h: History)
    ensures |h| == 1 && h[|h| - 1] == currentPath
  {
    [currentPath]
  }

  /** A completed route change to `url`. A url equal to the newest entry is not recorded again
      (a browser back both pops the newest entry and completes a route change to the entry that is
      now newest); otherwise it is appended. Comparing with an empty history reads `undefined`,
      which equals no url, so the url is appended. */
  function OnRouteChange(h: History, url: string): (r: History)
    ensures |r| > 0 && r[|r| - 1] == url
    ensures |h| > 0 && h[|h| - 1] == url ==> r == h
    ensures !(|h| > 0 && h[|h| - 1] == url) ==> |r| == |h| + 1 && r[..|h|] == h
  {
    if |h| > 0 && url == h[|h| - 1] then h else h + [url]
  }

  /** Browser back navigation: drop the newest entry; an empty history stays empty. */
  function OnBackNavigation(h: History): (r: History)
    ensures |h| == 0 ==> r == []
    ensures |h| > 0 ==> r + [h[|h| - 1]] == h
  {
    if |h| == 0 then h else h[..|h| - 1]
  }

  /** `Array.prototype.splice(index, 1)`'s start position: a negative index counts from the end and
      is clamped at 0; an index past the end is clamped to the length (removing nothing). */
  function SpliceStart(index: int, len: nat): (start: nat)
    ensures start <= len
  {
    if index < 0 then (if len + index < 0 then 0 else len + index)
    else if index > len then len
    else index
  }

  /** `removeFromHistory(index)`: splice one entry out, keeping the order of the rest. */
  function RemoveFromHistory(h: History, index: int): (r: History)
    ensures 0 <= index < |h| ==> |r| == |h| - 1 && r[..index] == h[..index] && r[index..] == h[index + 1..]
    ensures index >= |h| ==> r == h
    ensures -|h| <= index < 0 ==> r == h[..|h| + index] + h[|h| + index + 1..]
    ensures index < -|h| && |h| > 0 ==> r == h[1..]
    ensures |h| == 0 ==> r == []
  {
    var start := SpliceStart(index, |h|);
    if start == |h| then h else h[..start] + h[start + 1..]
  }

  /** A recorded route change undone by back navigation restores the history. */
  lemma ChangeThenBackRestores(h: History, url: string)
    requires !(|h| > 0 && h[|h| - 1] == url)
    ensures OnBackNavigation(OnRouteChange(h, url)) == h
  {
  }

  /** The route change that accompanies a browser back (to the entry that became newest) leaves
      the shortened history as it is. */
  lemma BackThenArrivalRecordsNothing(h: History)
    requires |h| >= 2
    ensures OnRouteChange(OnBackNavigation(h), h[|h| - 2]) == OnBackNavigation(h)
  {
  }

  /** Repeating a route change records nothing more. */
  lemma RouteChangeIdempotent(h: History, url: string)
    ensures OnRouteChange(OnRouteChange(h, url), url) == OnRouteChange(h, url)
  {
  }

  /** Removing entry `i` and putting it back at position `i` gives the original history: exactly
      that entry went, and the rest kept their order. */
  lemma RemoveThenReinsert(h: History, i: int)
    requires 0 <= i < |h|
    ensures var r := RemoveFromHistory(h, i);
            r[..i] + [h[i]] + r[i..] == h
  {
    var r := RemoveFromHistory(h, i);
    assert h == h[..i] + [h[i]] + h[i + 1..];
  }

  /** Removing by a negative index removes the same entry as its positive counterpart. */
  lemma NegativeIndexCountsFromEnd(h: History, i: int)
    requires -|h| <= i < 0
    ensures RemoveFromHistory(h, i) == RemoveFromHistory(h, |h| + i)
  {
  }
}
