/**
 * Small display rules of the stats page: the visitor phrase
 * (src/pages/stats.js:80-89), the five most viewed pages (:134) and how a
 * page's path is shown (:139).
 */
module PageDisplay {

  /** A node of `allPageViews.edges`: a path and its view count. */
  datatype PageView = PageView(path: string, totalCount: int)

  /** One row of the "Most Popular Pages" list: the shown address and the view count. */
  datatype PageRow = PageRow(address: string, views: int)

  /** How many pages the list shows at most. */
  const TopPageCount: nat := 5

  /** The host name every shown address starts with. */
  const Host: string := "sld.codes"

  /** The first five edges, or all of them when there are fewer. */
  function TopPages(edges: seq<PageView>): (top: seq<PageView>)
    ensures |top| == if |edges| < TopPageCount then |edges| else TopPageCount
    ensures top == edges[..|top|]
  {
    if |edges| <= TopPageCount then edges else edges[..TopPageCount]
  }

  /** The address shown for a path: the host alone for the root, the host followed by the path otherwise. */
  function PageLabel(path: string): (shown: string)
    ensures |shown| >= |Host| && shown[..|Host|] == Host
    ensures path == "/" ==> shown == Host
    ensures path != "/" ==> shown == Host + path
  {
    Host + (if path == "/" then "" else path)
  }

  /** Two paths get the same label only when they are equal, or are `/` and the empty path. */
  lemma PageLabelDistinguishes(p: string, q: string)
    requires PageLabel(p) == PageLabel(q)
    ensures p == q || (p in {"/", ""} && q in {"/", ""})
  {
  }

  /** The rows of the list: the label and view count of each of the first five edges, in order. */
  function PageRows(edges: seq<PageView>): (rows: seq<PageRow>)
    ensures |rows| <= TopPageCount && |rows| == |TopPages(edges)|
    ensures forall i :: 0 <= i < |rows| ==> rows[i] == PageRow(PageLabel(edges[i].path), edges[i].totalCount)
  {
    var top := TopPages(edges);
    seq(|top|, i requires 0 <= i < |top| => PageRow(PageLabel(top[i].path), top[i].totalCount))
  }

  /** "among N people" or "the only 1". */
  datatype VisitorPhrase = AmongPeople(count: int) | TheOnlyOne

  /** The phrase for the current visitor count: "among" the count only when it is above 1. */
  function VisitorPhraseFor(count: int): (v: VisitorPhrase)
    ensures v.AmongPeople? <==> count > 1
    ensures v.AmongPeople? ==> v.count == count
  {
    if count > 1 then AmongPeople(count) else TheOnlyOne
  }

  /** The number the phrase shows. */
  function ShownVisitors(v: VisitorPhrase): int {
    match v
    case AmongPeople(n) => n
    case TheOnlyOne => 1
  }

  /** The phrase shows the count when it is above 1, and 1 for every other count, 0 and below included. */
  lemma ShownVisitorsAtLeastOne(count: int)
    ensures ShownVisitors(VisitorPhraseFor(count)) == if count > 1 then count else 1
    ensures ShownVisitors(VisitorPhraseFor(count)) >= 1
  {
  }
}
