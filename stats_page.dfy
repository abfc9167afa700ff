/**
 * The values the stats page renders (src/pages/stats.js:17-157), computed
 * from the build query's data, the visitor count of the store and the outcome
 * of the reaction read.
 */
module StatsPage {
  import opened Reactions
  import opened NumberFormat
  import opened LanguageCards
  import opened PageDisplay

  datatype SiteWideStats = SiteWideStats(pageViews: int, sessions: int)

  /** The result of the build query that the page reads. */
  datatype PageData = PageData(
    allPageViews: seq<PageView>,
    siteWideStats: SiteWideStats,
    gitlogTotalCount: int,
    statsJson: StatsJson)

  /** What the page shows, field by field. */
  datatype StatsView = StatsView(
    visitors: VisitorPhrase,
    views: string,
    sessions: string,
    reactions: seq<Shown>,
    codeLines: int,
    commentLines: int,
    commits: int,
    topPages: seq<PageRow>,
    cards: seq<Card>,
    byCode: seq<Entry>,
    byFiles: seq<Entry>)

  method Stats(data: PageData, count: int, outcome: FetchOutcome) returns (view: StatsView)
    modifies data.statsJson.javaScript, data.statsJson.markdown, data.statsJson.sass, data.statsJson.json
    ensures view.visitors == VisitorPhraseFor(count)
    ensures view.views == FormatCount(data.siteWideStats.pageViews)
    ensures view.sessions == FormatCount(data.siteWideStats.sessions)
    ensures !outcome.Resolved? ==> view.reactions == Displayed(Placeholder(PlaceholderRecord()))
    ensures outcome.Resolved? ==> view.reactions == Displayed(Counts(Tally(outcome.docs)))
    ensures view.codeLines == data.statsJson.sum.code && view.commentLines == data.statsJson.sum.comment
    ensures view.commits == data.gitlogTotalCount
    ensures view.topPages == PageRows(data.allPageViews)
    ensures view.cards == Cards(data.statsJson)
    ensures forall c :: c in view.cards ==> c.bucket.percentage == Percent(c.bucket.code, data.statsJson.sum.code)
    ensures forall c :: c in view.cards ==>
      && c.bucket.nFiles == old(c.bucket.nFiles) && c.bucket.comment == old(c.bucket.comment)
      && c.bucket.code == old(c.bucket.code) && c.bucket.blank == old(c.bucket.blank)
    ensures |view.byCode| == |CardNames| && |view.byFiles| == |CardNames|
    ensures forall i :: 0 <= i < |CardNames| ==>
      && view.byCode[i] == Entry(CardNames[i], view.cards[i].bucket.code)
      && view.byFiles[i] == Entry(CardNames[i], view.cards[i].bucket.nFiles)
  {
    var stats := data.statsJson;
    var cards, byCode, byFiles := DeriveLanguageStats(stats);
    var reacts := ComputeReacts(outcome);
    view := StatsView(
      VisitorPhraseFor(count),
      FormatCount(data.siteWideStats.pageViews),
      FormatCount(data.siteWideStats.sessions),
      Displayed(reacts),
      stats.sum.code,
      stats.sum.comment,
      data.gitlogTotalCount,
      PageRows(data.allPageViews),
      cards, byCode, byFiles);
  }
}
