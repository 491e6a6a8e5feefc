/** Which page the layout highlights for a path (src/pages/index.jsx): the
    last path segment, without a query, matched case-insensitively against
    the page names, Dashboard when nothing matches. */
module Pages {
  import opened Js
  import opened Strings

  /** `Object.keys(PAGES)`, in declaration order. */
  const PAGES: seq<string> := ["Dashboard", "Referrals", "Leaderboard", "Profile", "Tasks", "Swap"]

  /** `url.endsWith('/') ? url.slice(0, -1) : url`. */
  function DropTrailingSlash(url: string): (r: string)
    ensures url != [] && url[|url| - 1] == '/' ==> r + "/" == url
    ensures url == [] || url[|url| - 1] != '/' ==> r == url
  {
    if |url| > 0 && url[|url| - 1] == '/' then url[..|url| - 1] else url
  }

  /** The text before any '?'. */
  function DropQuery(part: string): (r: string)
    ensures '?' !in r
    ensures '?' !in part ==> r == part
  {
    if '?' in part then BeforeFirst(part, '?') else part
  }

  /** The part of the path that names the page: one trailing slash dropped,
      then the text after the last slash, then the text before any '?'. */
  function LastSegment(url: string): (r: string)
    ensures '/' !in r && '?' !in r
  {
    DropQuery(AfterLast(DropTrailingSlash(url), '/'))
  }

  /** The first page whose name equals the segment, ignoring case. */
  function FindPage(names: seq<string>, segment: string): (r: Option<nat>)
    ensures r.Some? ==>
      && r.value < |names|
      && Lower(names[r.value]) == Lower(segment)
      && forall j :: 0 <= j < r.value ==> Lower(names[j]) != Lower(segment)
    ensures r.None? ==> forall j :: 0 <= j < |names| ==> Lower(names[j]) != Lower(segment)
    decreases |names|
  {
    if names == [] then None
    else if Lower(names[0]) == Lower(segment) then Some(0)
    else
      var rest := FindPage(names[1..], segment);
      if rest.None? then None else Some(rest.value + 1)
  }

  /** `_getCurrentPage(url)`. */
  function GetCurrentPage(url: string): (r: string)
    ensures r in PAGES
    ensures r == PAGES[0] || Lower(r) == Lower(LastSegment(url))
  {
    var pageName := FindPage(PAGES, LastSegment(url));
    if pageName.Some? then PAGES[pageName.value] else PAGES[0]
  }

  /** No two page names differ only in case, so the match is unambiguous. */
  lemma PageNamesDistinctIgnoringCase(i: nat, j: nat)
    requires i < |PAGES| && j < |PAGES| && i != j
    ensures Lower(PAGES[i]) != Lower(PAGES[j])
  {
    assert |PAGES[0]| == 9 && |PAGES[1]| == 9 && |PAGES[2]| == 11;
    assert |PAGES[3]| == 7 && |PAGES[4]| == 5 && |PAGES[5]| == 4;
    if {i, j} == {0, 1} {
      assert Lower(PAGES[0])[0] == 'd' && Lower(PAGES[1])[0] == 'r';
    }
  }

  /** A segment that names a page, in any ASCII case, selects exactly that page. */
  lemma NamedPageFound(k: nat, segment: string)
    requires k < |PAGES| && Lower(segment) == Lower(PAGES[k])
    ensures FindPage(PAGES, segment) == Some(k)
  {
    var r := FindPage(PAGES, segment);
    if r != Some(k) {
      assert r.Some?;
      PageNamesDistinctIgnoringCase(r.value, k);
    }
  }

  /** A path whose segment names a page, in any ASCII case, shows that page. */
  lemma PageOfSegment(url: string, k: nat)
    requires k < |PAGES| && Lower(LastSegment(url)) == Lower(PAGES[k])
    ensures GetCurrentPage(url) == PAGES[k]
  {
    NamedPageFound(k, LastSegment(url));
  }

  /** A segment that names no page, in any case, shows the Dashboard. */
  lemma UnknownSegmentShowsDashboard(url: string)
    requires forall i :: 0 <= i < |PAGES| ==> Lower(PAGES[i]) != Lower(LastSegment(url))
    ensures GetCurrentPage(url) == "Dashboard"
  {
  }

  /** Upper- and lower-casing keep a string free of '/' and '?'. */
  lemma CaseKeepsSeparatorsOut(name: string)
    requires '/' !in name && '?' !in name
    ensures '/' !in Lower(name) && '?' !in Lower(name)
    ensures '/' !in Upper(name) && '?' !in Upper(name)
  {
    forall i | 0 <= i < |name|
      ensures Lower(name)[i] != '/' && Lower(name)[i] != '?'
      ensures Upper(name)[i] != '/' && Upper(name)[i] != '?'
    {
    }
  }

  /** Round trip: a path ending in a page's name, in upper, lower or original
      case and under any prefix, shows that page. */
  lemma RouteRoundTrip(k: nat, prefix: string)
    requires k < |PAGES|
    ensures GetCurrentPage(prefix + "/" + PAGES[k]) == PAGES[k]
    ensures GetCurrentPage(prefix + "/" + Lower(PAGES[k])) == PAGES[k]
    ensures GetCurrentPage(prefix + "/" + Upper(PAGES[k])) == PAGES[k]
  {
    var name := PAGES[k];
    assert '/' !in name && '?' !in name;
    CaseKeepsSeparatorsOut(name);
    LowerForgetsCase(name);
    SegmentOf(prefix, name);
    PageOfSegment(prefix + "/" + name, k);
    SegmentOf(prefix, Lower(name));
    PageOfSegment(prefix + "/" + Lower(name), k);
    SegmentOf(prefix, Upper(name));
    PageOfSegment(prefix + "/" + Upper(name), k);
  }

  /** One trailing slash is ignored. */
  lemma TrailingSlashIgnored(url: string)
    requires url != [] && url[|url| - 1] != '/'
    ensures GetCurrentPage(url + "/") == GetCurrentPage(url)
  {
    assert (url + "/")[..|url + "/"| - 1] == url;
    assert DropTrailingSlash(url + "/") == DropTrailingSlash(url);
    assert LastSegment(url + "/") == LastSegment(url);
  }

  /** A query after the page's name is ignored. */
  lemma QueryIgnored(k: nat, prefix: string, query: string)
    requires k < |PAGES| && '/' !in query
    ensures GetCurrentPage(prefix + "/" + PAGES[k] + "?" + query) == PAGES[k]
  {
    assert '/' !in PAGES[k] && '?' !in PAGES[k];
    SegmentWithQuery(prefix, PAGES[k], query);
    PageOfSegment(prefix + "/" + PAGES[k] + "?" + query, k);
  }

  /** The segment of `prefix/seg` is seg when seg has no slash or '?'. */
  lemma SegmentOf(prefix: string, seg: string)
    requires seg != [] && '/' !in seg && '?' !in seg
    ensures LastSegment(prefix + "/" + seg) == seg
  {
    var url := prefix + "/" + seg;
    assert url == prefix + ['/'] + seg;
    assert url[|url| - 1] == seg[|seg| - 1];
    AfterLastSplit(prefix, seg, '/');
  }

  /** The segment of `prefix/seg?query` is seg. */
  lemma SegmentWithQuery(prefix: string, seg: string, query: string)
    requires '/' !in seg && '?' !in seg && '/' !in query
    ensures LastSegment(prefix + "/" + seg + "?" + query) == seg
  {
    var tail := seg + ['?'] + query;
    var url := prefix + ['/'] + tail;
    assert url == prefix + "/" + seg + "?" + query;
    assert '/' !in tail;
    assert url[|url| - 1] == tail[|tail| - 1];
    assert DropTrailingSlash(url) == url;
    AfterLastSplit(prefix, tail, '/');
    assert '?' in tail by {
      assert tail[|seg|] == '?';
    }
    BeforeFirstSplit(seg, query, '?');
  }

  /** The root path and the empty path show the Dashboard. */
  lemma RootShowsDashboard()
    ensures GetCurrentPage("/") == "Dashboard"
    ensures GetCurrentPage("") == "Dashboard"
  {
    EmptySegmentShowsDashboard("/");
    EmptySegmentShowsDashboard("");
  }

  /** A path ending in two slashes has an empty last segment once one slash
      is dropped, so it shows the Dashboard whatever page it was under. */
  lemma DoubleSlashShowsDashboard(prefix: string)
    ensures GetCurrentPage(prefix + "//") == "Dashboard"
  {
    var url := prefix + "//";
    assert url[|url| - 1] == '/';
    assert url[..|url| - 1] == prefix + ['/'] + [];
    AfterLastSplit(prefix, [], '/');
    EmptySegmentShowsDashboard(url);
  }

  /** A path with an empty last segment names no page. */
  lemma EmptySegmentShowsDashboard(url: string)
    requires AfterLast(DropTrailingSlash(url), '/') == []
    ensures GetCurrentPage(url) == "Dashboard"
  {
    assert LastSegment(url) == [];
  }

  /** Only the last segment matters: whatever comes before its slash is ignored. */
  lemma OnlyLastSegmentMatters(p1: string, p2: string, seg: string)
    requires seg != [] && '/' !in seg && '?' !in seg
    ensures GetCurrentPage(p1 + "/" + seg) == GetCurrentPage(p2 + "/" + seg)
  {
    SegmentOf(p1, seg);
    SegmentOf(p2, seg);
  }
}
