/**
 * initializeSearch: the debounced query gate, performSearch's per-section collection and
 * getSearchSnippet's window of 50 characters on each side of the first match. Queries
 * and section texts are taken as already lower-cased (and the query trimmed).
 */
module Search {
  import opened Wrappers

  /** The query must be longer than this for a search to run. */
  const MinQueryLength: nat := 2
  /** The characters kept on each side of the match in a snippet. */
  const SnippetContext: int := 50
  const Ellipsis: string := "..."

  /** The query occurs in s starting at index i. */
  predicate OccursAt(s: string, q: string, i: nat) {
    i + |q| <= |s| && s[i..i + |q|] == q
  }

  /** String.prototype.includes. */
  predicate Includes(s: string, q: string) {
    exists i: nat :: i <= |s| && OccursAt(s, q, i)
  }

  function IndexFrom(s: string, q: string, i: nat): (r: int)
    requires i <= |s|
    ensures r == -1 || (i <= r && OccursAt(s, q, r))
    ensures r == -1 ==> forall j: nat :: i <= j ==> !OccursAt(s, q, j)
    ensures r >= 0 ==> forall j: nat :: i <= j < r ==> !OccursAt(s, q, j)
    decreases |s| - i
  {
    if OccursAt(s, q, i) then i
    else if i == |s| then -1
    else IndexFrom(s, q, i + 1)
  }

  /** String.prototype.indexOf: the first index at which q occurs in s, or -1. */
  function IndexOf(s: string, q: string): (r: int)
    ensures r >= -1
    ensures r == -1 <==> !Includes(s, q)
    ensures r >= 0 ==> OccursAt(s, q, r) && forall j: nat :: j < r ==> !OccursAt(s, q, j)
  {
    IndexFrom(s, q, 0)
  }

  function Max(a: int, b: int): int {
    if a >= b then a else b
  }

  function Min(a: int, b: int): int {
    if a <= b then a else b
  }

  /** String.prototype.substring clamps both ends into [0, |s|] and swaps them when start > end. */
  function Substring(s: string, start: int, end: int): (r: string)
    ensures 0 <= start <= end <= |s| ==> r == s[start..end]
  {
    var a := Max(0, Min(start, |s|));
    var b := Max(0, Min(end, |s|));
    if a <= b then s[a..b] else s[b..a]
  }

  /** The snippet for a match at `index`: up to 50 characters on each side of it, then "...". */
  function SnippetAt(content: string, query: string, index: int): string {
    var start := Max(0, index - SnippetContext);
    var end := Min(|content|, index + |query| + SnippetContext);
    Substring(content, start, end) + Ellipsis
  }

  /** getSearchSnippet: the snippet around the first match holds the query, and is short in any case. */
  function GetSearchSnippet(content: string, query: string): (r: string)
    ensures Includes(content, query) ==> Includes(r, query)
    ensures |r| <= |query| + 2 * SnippetContext + |Ellipsis|
  {
    var index := IndexOf(content, query);
    SnippetAtBound(content, query, index);
    if index >= 0 then
      SnippetAtMatch(content, query, index);
      SnippetAt(content, query, index)
    else
      SnippetAt(content, query, index)
  }

  /** Whether or not the query was found, the snippet is at most |q| + 103 characters long. */
  lemma SnippetAtBound(content: string, query: string, index: int)
    requires index == -1 || (index >= 0 && OccursAt(content, query, index))
    ensures |SnippetAt(content, query, index)| <= |query| + 2 * SnippetContext + |Ellipsis|
  {
    var start := Max(0, index - SnippetContext);
    var end := Min(|content|, index + |query| + SnippetContext);
    assert 0 <= start <= end <= |content|;
  }

  /** A window of s that covers the occurrence at i holds it, shifted by the window's start. */
  lemma WindowHoldsMatch(s: string, q: string, i: nat, start: nat, end: nat)
    requires OccursAt(s, q, i) && start <= i && i + |q| <= end <= |s|
    ensures OccursAt(s[start..end] + Ellipsis, q, i - start)
  {
    var w := s[start..end];
    assert (w + Ellipsis)[i - start..i - start + |q|] == w[i - start..i - start + |q|];
    var inWindow, inText := w[i - start..i - start + |q|], s[i..i + |q|];
    forall k | 0 <= k < |q|
      ensures inWindow[k] == inText[k]
    {
      assert w[i - start + k] == s[i + k];
    }
    assert inWindow == inText;
  }

  /** The snippet for an occurrence at i is the window around it, holds it, and is short. */
  lemma SnippetAtMatch(content: string, query: string, i: nat)
    requires OccursAt(content, query, i)
    ensures var start := Max(0, i - SnippetContext);
            var snippet := SnippetAt(content, query, i);
            snippet == content[start..Min(|content|, i + |query| + SnippetContext)] + Ellipsis
            && OccursAt(snippet, query, i - start)
            && |snippet| <= |query| + 2 * SnippetContext + |Ellipsis|
  {
    var start := Max(0, i - SnippetContext);
    var end := Min(|content|, i + |query| + SnippetContext);
    assert 0 <= start <= i && i + |query| <= end <= |content|;
    WindowHoldsMatch(content, query, i, start, end);
  }

  /**
   * For a query found at index i, the snippet is content[max(0, i-50) .. min(|content|, i+|q|+50)]
   * followed by "...": it holds the match and is at most |q| + 103 characters long.
   */
  lemma SnippetAroundMatch(content: string, query: string)
    requires Includes(content, query)
    ensures var i := IndexOf(content, query);
            var start := Max(0, i - SnippetContext);
            var snippet := GetSearchSnippet(content, query);
            snippet == content[start..Min(|content|, i + |query| + SnippetContext)] + Ellipsis
            && OccursAt(snippet, query, i - start)
            && |snippet| <= |query| + 2 * SnippetContext + |Ellipsis|
  {
    var i := IndexOf(content, query);
    assert i >= 0;
    SnippetAtMatch(content, query, i);
  }

  /** What the input handler does once its 300 ms timer runs. */
  datatype Action = PerformSearch(query: string) | ClearResults

  function OnQuery(query: string): (a: Action)
    ensures a.PerformSearch? <==> |query| > MinQueryLength
    ensures a.PerformSearch? ==> a.query == query
  {
    if |query| > MinQueryLength then PerformSearch(query) else ClearResults
  }

  /** A `.section` as performSearch reads it: id, text and the text of its first h1, h2 or h3. */
  datatype SearchSection = SearchSection(id: string, content: string, heading: Option<string>)

  datatype SearchResult = SearchResult(title: string, id: string, snippet: string)

  /** `heading?.textContent || 'Section'`: no heading, or an empty one, gives 'Section'. */
  function TitleOf(heading: Option<string>): (t: string)
    ensures t != ""
    ensures heading.Some? && heading.value != "" ==> t == heading.value
    ensures heading.None? || heading.value == "" ==> t == "Section"
  {
    OrDefault(heading, "Section")
  }

  function ResultFor(s: SearchSection, query: string): SearchResult {
    SearchResult(TitleOf(s.heading), s.id, GetSearchSnippet(s.content, query))
  }

  /** The results of performSearch: one per section whose text includes the query, in document order. */
  function Results(sections: seq<SearchSection>, query: string): (r: seq<SearchResult>)
    ensures |r| <= |sections|
  {
    if |sections| == 0 then []
    else
      var n := |sections| - 1;
      Results(sections[..n], query)
      + (if Includes(sections[n].content, query) then [ResultFor(sections[n], query)] else [])
  }

  /** Every section whose text holds the query has its result. */
  lemma {:induction false} ResultsComplete(sections: seq<SearchSection>, query: string, i: nat)
    requires i < |sections| && Includes(sections[i].content, query)
    ensures ResultFor(sections[i], query) in Results(sections, query)
  {
    var n := |sections| - 1;
    if i < n {
      assert sections[..n][i] == sections[i];
      ResultsComplete(sections[..n], query, i);
    }
  }

  /** Every result comes from a section whose text holds the query, and its snippet holds the query too. */
  lemma {:induction false} ResultsSound(sections: seq<SearchSection>, query: string, r: SearchResult)
    requires r in Results(sections, query)
    ensures exists i :: 0 <= i < |sections| && Includes(sections[i].content, query)
                        && r == ResultFor(sections[i], query)
    ensures Includes(r.snippet, query)
  {
    var n := |sections| - 1;
    if r in Results(sections[..n], query) {
      ResultsSound(sections[..n], query, r);
      var i :| 0 <= i < n && Includes(sections[..n][i].content, query)
               && r == ResultFor(sections[..n][i], query);
      assert sections[..n][i] == sections[i];
    } else {
      SnippetAroundMatch(sections[n].content, query);
    }
  }

  /** performSearch's forEach over the sections. */
  method CollectResults(sections: seq<SearchSection>, query: string) returns (results: seq<SearchResult>)
    ensures results == Results(sections, query)
  {
    results := [];
    var k := 0;
    while k < |sections|
      invariant 0 <= k <= |sections|
      invariant results == Results(sections[..k], query)
    {
      var section := sections[k];
      assert sections[..k + 1][..k] == sections[..k];
      if IndexOf(section.content, query) >= 0 {
        results := results + [SearchResult(TitleOf(section.heading), section.id,
                                           GetSearchSnippet(section.content, query))];
      }
      k := k + 1;
    }
    assert sections[..k] == sections;
  }

  /** What `#searchResults` shows. */
  datatype Display =
    | Unchanged                          // never written
    | Cleared                            // innerHTML = ''
    | NoResults                          // '<p>No results found</p>'
    | Listed(results: seq<SearchResult>) // one block per result

  /**
   * The search box: each input event replaces the pending timer with one for the new
   * query (clearTimeout, then setTimeout 300 ms); the timer searches or clears.
   */
  class SearchBox {
    /** Both `#searchInput` and `#searchResults` exist, so the input listener was added. */
    const wired: bool
    /** The query of the timer still pending, if any. */
    var pending: Option<string>
    var display: Display

    constructor (hasInput: bool, hasResults: bool)
      ensures wired == (hasInput && hasResults) && pending == None && display == Unchanged
    {
      wired := hasInput && hasResults;
      pending := None;
      display := Unchanged;
    }

    /** An input event with the lower-cased, trimmed value. */
    method OnInput(query: string)
      modifies this`pending
      ensures wired ==> pending == Some(query)
      ensures !wired ==> pending == old(pending)
    {
      if wired {
        pending := Some(query);
      }
    }

    /** The pending timer runs against the sections as they are now. */
    method OnTimer(sections: seq<SearchSection>)
      requires pending.Some?
      modifies this`pending, this`display
      ensures pending == None
      ensures |old(pending).value| <= MinQueryLength ==> display == Cleared
      ensures |old(pending).value| > MinQueryLength ==>
                var found := Results(sections, old(pending).value);
                display == (if found == [] then NoResults else Listed(found))
    {
      var query := pending.value;
      pending := None;
      match OnQuery(query) {
        case PerformSearch(q) =>
          var results := CollectResults(sections, q);
          if |results| == 0 {
            display := NoResults;
          } else {
            display := Listed(results);
          }
        case ClearResults =>
          display := Cleared;
      }
    }
  }
}
