# Stats page computations, in Dafny

A model of the computations inside the statistics page of a personal site
(`src/pages/stats.js`): the page shows how many people are visiting, the
site-wide view and session counts with thousands separators, how often the
articles were reacted to with each emoji, the five most viewed pages and a
per-language breakdown of the site's code.

Modules:

- `Reactions` (`reactions.dfy`): the fold of the reaction documents into one
  record. `Aggregate` is the page's in-place fold, key by key, with the
  JavaScript truthiness tests (`if (acc.total)`, `if (acc[key])`). It is proved
  equal to `Tally`, the record in which every entry `(key, v)` of every
  document adds `v` to the `total` slot and `v` to the slot `key`. Lemmas then
  say what `Tally` holds: `total` is the sum of all values plus the values of
  keys literally named `total`, which are counted twice. Every other key holds
  the sum of its values (keys naming members inherited by JavaScript objects,
  such as `constructor`, are outside the model; see below). A slot exists only when some document creates it. The
  order of the documents does not matter. While the read is pending or has
  failed, the placeholder record is used instead. Its unicorn key is spelled
  `uncorn`, but the sentence reads `reacts.unicorn`, which is then undefined.
- `NumberFormat` (`number_format.dfy`): `n.toString()` for integers, and
  `replace(/\B(?=(\d{3})+(?!\d))/g, ",")`, modelled by what the regular
  expression matches at each position. Lemmas: deleting the commas gives the
  input back. For a digit string, commas sit exactly where the distance to the
  end is a multiple of four, and the first group has one to three digits. A
  minus sign is kept in front.
- `LanguageCards` (`language_cards.dfy`): the four buckets (JavaScript,
  Markdown, Sass, JSON) are objects of class `Bucket`. The first loop writes
  `percentage` into each of them in place. The second loop builds
  `statsByCodeCount` and `statsByFileCount`.
- `PageDisplay` (`page_display.dfy`): the visitor phrase, the top-five slice
  and the address shown for a path.
- `StatsPage` (`stats_page.dfy`): the page's values put together.
- `Wrappers` (`wrappers.dfy`): `Option`.

Where the code departs from what the page's design leads one to expect, the model follows the code:

- One would expect every reaction field to show the placeholder while the
  read is pending or failed. In the code, the placeholder record has `uncorn`, and
  the sentence reads `unicorn`, which is undefined (`PlaceholderDisplay`).
- One would expect the singular phrase only when the count is exactly 1. In
  the code it is used for every count not above 1, including 0 and negative
  counts (`VisitorPhraseFor`).
- One would expect the reduction to be a plain per-key sum. In the code, a key named
  `total` feeds the `total` slot twice (`TallyTotal`). With no documents there
  is no `total` slot at all, not a 0 (`TallyNoDocs`).

## Model

| member | source | states |
|---|---|---|
| Reactions.Truthy | src/pages/stats.js:57 | a slot tested by `if` is truthy exactly when it is present and not 0, i.e. when it reads as a nonzero number |
| Reactions.Bump | src/pages/stats.js:57-66 | either truthiness branch (slot absent or 0, or not) amounts to adding v onto the slot read as 0; only that slot changes |
| Reactions.Aggregate | src/pages/stats.js:54-69 | the in-place fold over documents and their keys, in any key order, yields exactly Tally(docs) |
| Reactions.TallyStep | src/pages/stats.js:56-66 | one visit of a key adds its value to `total` and to the key's own slot, so an entry named `total` adds to the same slot twice |
| Reactions.TallyTotal | src/pages/stats.js:57-61 | `total` exists iff some document has an entry; then it equals the sum of every value plus the values of keys named `total` |
| Reactions.TallyTotalPlain | src/pages/stats.js:57-61 | with no key named `total`, the grand total is the plain sum of all values |
| Reactions.TallyKey | src/pages/stats.js:62-66 | any other key has a slot iff some document has the key, and the slot holds that key's sum over those documents |
| Reactions.TallyNoDocs | src/pages/stats.js:69 | zero documents give the empty record, with no `total` slot |
| Reactions.TallyPermutation | src/pages/stats.js:54-69 | documents in any order (same multiset) give the same record |
| Reactions.PlaceholderRecord | src/pages/stats.js:47-53 | the placeholder record has exactly the keys total, fire, uncorn, popcorn, avo, each holding "..." |
| Reactions.ComputeReacts | src/pages/stats.js:45-69 | pending or failed reads give the placeholder record; a resolved read gives Tally of its documents |
| Reactions.Field | src/pages/stats.js:103-110 | reading a field gives undefined exactly when the record lacks the key; a placeholder record never yields a number and a counted record never yields text |
| Reactions.Displayed | src/pages/stats.js:103-110 | the sentence reads five fields, in the order total, avo, popcorn, fire, unicorn |
| Reactions.ResolvedDisplay | src/pages/stats.js:103-110 | once resolved, the sentence shows the grand total (undefined without any entry), then avo, popcorn, fire and unicorn, each its key's sum or undefined when no document has the key |
| Reactions.PlaceholderDisplay | src/pages/stats.js:103-110 | while pending or failed, total, avo, popcorn and fire show "..." and no number, and unicorn is undefined |
| Reactions.ResolvedTotalDisplay | src/pages/stats.js:103 | once resolved, the total field is a number iff some document has an entry, and that number is the grand total |
| Reactions.ResolvedEmojiDisplay | src/pages/stats.js:104-110 | once resolved, an emoji field is a number iff some document has that key, and it is the key's sum |
| NumberFormat.Decimal | src/pages/stats.js:92 | `toString` of a natural number is a nonempty digit string without leading zeros |
| NumberFormat.NumberToString | src/pages/stats.js:92 | `toString` of an integer: digits for a non-negative count, a minus sign followed by digits for a negative one, never a comma |
| NumberFormat.DecimalRoundTrip | src/pages/stats.js:92 | parsing the decimal digits gives the number back |
| NumberFormat.SeparatorAt | src/pages/stats.js:92 | the pattern can only match strictly inside the string, after a word character and before a digit |
| NumberFormat.ReplaceFrom | src/pages/stats.js:92 | the global replace from position p on keeps at least the remaining characters |
| NumberFormat.InsertSeparators | src/pages/stats.js:92 | the global replace never shortens the string |
| NumberFormat.FormatCount | src/pages/stats.js:92 | removing the commas from a formatted count gives exactly the count's `toString` |
| NumberFormat.FormatSmallCount | src/pages/stats.js:96 | counts from 0 to 999 are shown unchanged, without a comma |
| NumberFormat.SeparatorInDigits | src/pages/stats.js:92 | in a digit string the pattern matches before position p iff 0 < p < length and a multiple of three digits follow |
| NumberFormat.InsertSeparatorsRemove | src/pages/stats.js:92 | the replace only inserts commas: removing commas from its result gives the input without commas |
| NumberFormat.FormatRoundTrip | src/pages/stats.js:92 | removing the commas from a formatted count and parsing it gives the count back |
| NumberFormat.InsertSeparatorsDigits | src/pages/stats.js:92 | a nonempty digit string becomes groups of three from the right with a first group of 1 to 3 digits, never starting or ending with a comma |
| NumberFormat.FormatCountShape | src/pages/stats.js:96 | a formatted count is the sign of a negative number followed by the grouped digits of its magnitude |
| NumberFormat.FormatCountExample | src/pages/stats.js:92 | 1234567 is shown as 1,234,567 |
| LanguageCards.Bucket.constructor | src/pages/stats.js:24 | a bucket from the build data has its four counts and no percentage yet |
| LanguageCards.Cards | src/pages/stats.js:29 | the cards are the four buckets under the keys JavaScript, Markdown, Sass, JSON in that order |
| LanguageCards.Percent | src/pages/stats.js:33 | the percentage is the floor of 100 * code / SUM.code, and is absent (not finite) when SUM.code is 0 |
| LanguageCards.PercentBounds | src/pages/stats.js:33 | a bucket with 0 <= code <= SUM.code gets a percentage in 0..100, and 100 only when it is the whole |
| LanguageCards.PercentagesAtMost100 | src/pages/stats.js:32-34 | when the buckets hold no more code than SUM, their floored percentages add up to at most 100 |
| LanguageCards.AssignPercentages | src/pages/stats.js:32-34 | every card's bucket gets its percentage written in place; its other fields stay as they were |
| LanguageCards.Tabulate | src/pages/stats.js:35-44 | one entry per card in card order: name with code in the first list, name with file count in the second |
| LanguageCards.DeriveLanguageStats | src/pages/stats.js:29-44 | the two loops together: percentages written, then both lists in key order JavaScript, Markdown, Sass, JSON |
| PageDisplay.TopPages | src/pages/stats.js:134 | the list is the first min(5, n) page views, in input order |
| PageDisplay.PageLabel | src/pages/stats.js:139 | the address starts with sld.codes and is exactly sld.codes for the root path |
| PageDisplay.PageLabelDistinguishes | src/pages/stats.js:139 | two paths share an address only if they are equal or are `/` and the empty path |
| PageDisplay.PageRows | src/pages/stats.js:134-147 | at most five rows, each the address and view count of the page at the same position |
| PageDisplay.VisitorPhraseFor | src/pages/stats.js:80-89 | "among N" iff count > 1 and then N is the count; "the only 1" for every other count, 0 included |
| PageDisplay.ShownVisitorsAtLeastOne | src/pages/stats.js:80-89 | the phrase shows the count above 1, and 1 otherwise |
| StatsPage.Stats | src/pages/stats.js:17-157 | the page's values: visitor phrase, formatted views and sessions, reaction fields, top pages, cards and both lists |

## Left out

- The Firestore read (`useCollectionOnce`) and the `typeof window` guards are
  not modelled. Their outcome is a parameter: pending, failed or resolved
  with the documents.
- Rendering is not modelled: JSX, `Layout`, `SEO`, `StatsCard` and
  `Emojione` are not part of this model. The page's values are returned as a
  datatype instead.
- The GraphQL build query and the Redux `connect`/`mapStateToProps` are not
  modelled. Their results are parameters: the page data and the visitor count.
- LanguageCards.Percent: computes the floor of the exact rational
  100 * code / SUM.code. The source computes `(code / SUM.code) * 100` in
  floating point, and rounding there can put the result just below an integer
  and so one lower. The infinite or NaN result for SUM.code = 0 is modelled
  only as None.
- NumberFormat.NumberToString: gives the exact decimal digits of an integer,
  which equal what `toString` prints only for magnitudes up to 2^53. Above
  that the source's count is a double, and `toString` prints the shortest
  digits that round back to it, padded with zeros (2^64 shows as
  18446744073709552000, not 18446744073709551616). An integer that no double
  represents has no counterpart in the source. The exponent notation from
  10^21 up and fractional numbers are not modelled either.
- Reactions.Aggregate: document values are integers. A non-numeric value,
  which JavaScript would concatenate as a string, is not modelled. Keys that
  name members every JavaScript object inherits (`constructor`, `toString`,
  `valueOf`, `hasOwnProperty`, ...) are not modelled either: in the source the
  slot then starts from the inherited, truthy function and the addition turns
  into string concatenation, while the model adds to 0. Sums are exact; the
  source adds in floating point, which rounds above 2^53. The order
  in which `Object.keys` lists a document's keys is left open; the proof
  covers every order.
- PageDisplay.VisitorPhraseFor: the count is an integer. A count that is
  still `undefined` in the store also takes the singular branch in the
  source; this is not modelled separately.
- `statsByCodeCount` and `statsByFileCount` are built but never rendered by
  the page. The model builds them and returns them with the page's values.
- `totalCount`, `SUM.code` and `SUM.comment` are passed through to the
  output unchanged.
