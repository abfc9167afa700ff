/**
 * The per-language breakdown (src/pages/stats.js:29-44): the four buckets of
 * the build-time `statsJson` record (JavaScript, Markdown, Sass, JSON) get a
 * `percentage` field written into them in place, and two lists of
 * name/value entries are built by pushing one entry per bucket.
 */
module LanguageCards {
  import opened Wrappers

  /** One bucket of `statsJson`. `percentage` is None until line 33 writes it. */
  class Bucket {
    var nFiles: int
    var comment: int
    var code: int
    var blank: int
    var percentage: Option<int>

    constructor (nFiles: int, comment: int, code: int, blank: int)
      ensures this.nFiles == nFiles && this.comment == comment
      ensures this.code == code && this.blank == blank
      ensures percentage == None
    {
      this.nFiles := nFiles;
      this.comment := comment;
      this.code := code;
      this.blank := blank;
      percentage := None;
    }
  }

  /** The `statsJson` record of the build query. */
  datatype StatsJson = StatsJson(javaScript: Bucket, markdown: Bucket, sass: Bucket, json: Bucket, sum: Bucket)

  /** One key of the `cards` object with the bucket it refers to. */
  datatype Card = Card(name: string, bucket: Bucket)

  /** A name and a value, an element of `statsByCodeCount` or `statsByFileCount`. */
  datatype Entry = Entry(name: string, value: int)

  /** `Object.keys(cards)`: the insertion order of the object literal. */
  const CardNames: seq<string> := ["JavaScript", "Markdown", "Sass", "JSON"]

  /** The `cards` object: the four buckets under their language names. */
  function Cards(stats: StatsJson): (cards: seq<Card>)
    ensures |cards| == |CardNames|
    ensures forall i :: 0 <= i < |cards| ==> cards[i].name == CardNames[i]
    ensures cards[0].bucket == stats.javaScript && cards[1].bucket == stats.markdown
    ensures cards[2].bucket == stats.sass && cards[3].bucket == stats.json
  {
    [Card("JavaScript", stats.javaScript), Card("Markdown", stats.markdown),
     Card("Sass", stats.sass), Card("JSON", stats.json)]
  }

  /**
   * The floor of code / sum times 100, on exact rationals: the largest integer p
   * with p <= 100 * code / sum. None stands for the non-finite result when sum is 0.
   */
  function Percent(code: int, sum: int): (p: Option<int>)
    ensures p.None? <==> sum == 0
    ensures sum > 0 ==> p.value * sum <= 100 * code < (p.value + 1) * sum
    ensures sum < 0 ==> p.value * sum >= 100 * code > (p.value + 1) * sum
  {
    if sum == 0 then None
    else if sum > 0 then Some((100 * code) / sum)
    else Some((-100 * code) / (-sum))
  }

  /** A bucket no larger than the whole gets a percentage between 0 and 100, and 100 only when it is the whole. */
  lemma PercentBounds(code: int, sum: int)
    requires 0 <= code <= sum && sum > 0
    ensures var p := Percent(code, sum).value; 0 <= p <= 100 && (p == 100 <==> code == sum)
  {
    // Spells out the division steps for the nonlinear arithmetic.
    var p := Percent(code, sum).value;
    assert p == (100 * code) / sum;
    assert 100 * code >= 0;
    DivMonotone(100 * code, 100 * sum, sum);
    assert (100 * sum) / sum == 100;
    if p == 100 {
      assert 100 * sum <= 100 * code;
    }
  }

  /** The first forEach: every card's bucket gets its percentage of SUM.code; nothing else changes. */
  method AssignPercentages(cards: seq<Card>, sum: Bucket)
    modifies set c | c in cards :: c.bucket
    ensures forall c :: c in cards ==> c.bucket.percentage == Percent(c.bucket.code, sum.code)
    ensures forall c :: c in cards ==>
      && c.bucket.nFiles == old(c.bucket.nFiles) && c.bucket.comment == old(c.bucket.comment)
      && c.bucket.code == old(c.bucket.code) && c.bucket.blank == old(c.bucket.blank)
    ensures sum.code == old(sum.code)
  {
    for i := 0 to |cards|
      invariant forall j :: 0 <= j < i ==> cards[j].bucket.percentage == Percent(cards[j].bucket.code, sum.code)
      invariant forall c :: c in cards ==>
        && c.bucket.nFiles == old(c.bucket.nFiles) && c.bucket.comment == old(c.bucket.comment)
        && c.bucket.code == old(c.bucket.code) && c.bucket.blank == old(c.bucket.blank)
      invariant sum.code == old(sum.code)
    {
      var b := cards[i].bucket;
      b.percentage := Percent(b.code, sum.code);
    }
  }

  /** The second forEach: one entry per card, in card order, into each of the two lists. */
  method Tabulate(cards: seq<Card>) returns (byCode: seq<Entry>, byFiles: seq<Entry>)
    ensures |byCode| == |cards| && |byFiles| == |cards|
    ensures forall i :: 0 <= i < |cards| ==> byCode[i] == Entry(cards[i].name, cards[i].bucket.code)
    ensures forall i :: 0 <= i < |cards| ==> byFiles[i] == Entry(cards[i].name, cards[i].bucket.nFiles)
  {
    byCode, byFiles := [], [];
    for i := 0 to |cards|
      invariant |byCode| == i && |byFiles| == i
      invariant forall j :: 0 <= j < i ==> byCode[j] == Entry(cards[j].name, cards[j].bucket.code)
      invariant forall j :: 0 <= j < i ==> byFiles[j] == Entry(cards[j].name, cards[j].bucket.nFiles)
    {
      byCode := byCode + [Entry(cards[i].name, cards[i].bucket.code)];
      byFiles := byFiles + [Entry(cards[i].name, cards[i].bucket.nFiles)];
    }
  }

  /** Lines 29-44 together. */
  method DeriveLanguageStats(stats: StatsJson) returns (cards: seq<Card>, byCode: seq<Entry>, byFiles: seq<Entry>)
    modifies stats.javaScript, stats.markdown, stats.sass, stats.json
    ensures cards == Cards(stats)
    ensures forall c :: c in cards ==> c.bucket.percentage == Percent(c.bucket.code, stats.sum.code)
    ensures forall c :: c in cards ==>
      && c.bucket.nFiles == old(c.bucket.nFiles) && c.bucket.comment == old(c.bucket.comment)
      && c.bucket.code == old(c.bucket.code) && c.bucket.blank == old(c.bucket.blank)
    ensures |byCode| == |CardNames| && |byFiles| == |CardNames|
    ensures forall i :: 0 <= i < |CardNames| ==>
      && byCode[i] == Entry(CardNames[i], cards[i].bucket.code)
      && byFiles[i] == Entry(CardNames[i], cards[i].bucket.nFiles)
  {
    cards := Cards(stats);
    assert forall c :: c in cards ==> c.bucket in {stats.javaScript, stats.markdown, stats.sass, stats.json};
    AssignPercentages(cards, stats.sum);
    byCode, byFiles := Tabulate(cards);
  }

  // ---------------------------------------------------------------------------
  // The percentages of the cards need not add up to 100, but never exceed it
  // ---------------------------------------------------------------------------

  function Total(xs: seq<int>): int {
    if xs == [] then 0 else Total(xs[..|xs| - 1]) + xs[|xs| - 1]
  }

  /** The sum of the percentages of buckets with these code counts. */
  function PercentTotal(codes: seq<int>, sum: int): int
    requires sum > 0
  {
    if codes == [] then 0 else PercentTotal(codes[..|codes| - 1], sum) + Percent(codes[|codes| - 1], sum).value
  }

  /** Flooring each part separately never gives more than flooring the whole. */
  lemma FloorAdd(a: int, b: int, s: int)
    requires s > 0
    ensures a / s + b / s <= (a + b) / s
  {
    var qa, qb, q := a / s, b / s, (a + b) / s;
    assert qa * s <= a && qb * s <= b;
    assert (qa + qb) * s == qa * s + qb * s;
    assert a + b < (q + 1) * s;
    MulCancel(qa + qb, q + 1, s);
  }

  lemma MulCancel(x: int, y: int, s: int)
    requires s > 0 && x * s < y * s
    ensures x < y
  {
  }

  lemma {:induction false} PercentTotalAtMost(codes: seq<int>, sum: int)
    requires sum > 0
    ensures PercentTotal(codes, sum) <= (100 * Total(codes)) / sum
  {
    if codes != [] {
      var init, last := codes[..|codes| - 1], codes[|codes| - 1];
      PercentTotalAtMost(init, sum);
      FloorAdd(100 * Total(init), 100 * last, sum);
    }
  }

  /** When the buckets together hold no more code than SUM, their percentages add up to at most 100. */
  lemma PercentagesAtMost100(codes: seq<int>, sum: int)
    requires sum > 0 && Total(codes) <= sum
    ensures PercentTotal(codes, sum) <= 100
  {
    PercentTotalAtMost(codes, sum);
    DivMonotone(100 * Total(codes), 100 * sum, sum);
    assert (100 * sum) / sum == 100;
  }

  lemma DivMonotone(x: int, y: int, s: int)
    requires s > 0 && x <= y
    ensures x / s <= y / s
  {
    FloorAdd(x, y - x, s);
    assert (y - x) / s >= 0;
  }
}
