/**
 * The reaction counter of the stats page: a one-shot read of the `likes`
 * collection, folded into one record of per-emoji totals plus a grand total,
 * or a record of placeholders while the read is pending or has failed.
 *
 * The fold (src/pages/stats.js:54-69) mutates its accumulator in place and
 * initialises a slot by JavaScript truthiness; it is modelled by the method
 * Aggregate and proved equal to the specification Tally, which says that every
 * entry (key, v) of every document adds v to the `total` slot and v to the
 * slot named key.
 */
module Reactions {
  import opened Wrappers

  /** One reaction document: emoji kind to count. */
  type Doc = map<string, int>

  /** The accumulator slot that receives every value. */
  const TotalSlot: string := "total"

  /**
   * A slot read as a number: an absent slot (JavaScript `undefined`) reads as 0.
   * Keys that name members inherited from `Object.prototype` are not modelled.
   */
  function Get(m: map<string, int>, k: string): int {
    if k in m then m[k] else 0
  }

  /** JavaScript truthiness of a numeric slot: `undefined` and `0` are falsy. */
  predicate Truthy(acc: map<string, int>, slot: string)
    ensures Truthy(acc, slot) <==> Get(acc, slot) != 0
  {
    slot in acc && acc[slot] != 0
  }

  /**
   * One slot update of the fold: a truthy slot gets v added, a falsy one is
   * overwritten with v. Either way this is plain addition onto 0.
   */
  function Bump(acc: map<string, int>, slot: string, v: int): (r: map<string, int>)
    ensures r.Keys == acc.Keys + {slot}
    ensures forall s :: Get(r, s) == Get(acc, s) + (if s == slot then v else 0)
  {
    if Truthy(acc, slot) then acc[slot := acc[slot] + v] else acc[slot := v]
  }

  // ---------------------------------------------------------------------------
  // Specification
  // ---------------------------------------------------------------------------

  /** The sum of all values of one document. */
  ghost function MapSum(m: Doc): int
    decreases |m|
  {
    if m == map[] then 0 else var k :| k in m; m[k] + MapSum(m - {k})
  }

  /** What one document adds to one slot of the accumulator. */
  ghost function DocWeight(d: Doc, s: string): int {
    (if s == TotalSlot then MapSum(d) else 0) + Get(d, s)
  }

  /** What a sequence of documents adds to one slot. */
  ghost function SlotSum(docs: seq<Doc>, s: string): int {
    if docs == [] then 0 else SlotSum(docs[..|docs| - 1], s) + DocWeight(docs[|docs| - 1], s)
  }

  /** The slots the fold creates: every key of every document, and `total` once any entry is seen. */
  ghost function Slots(docs: seq<Doc>): set<string> {
    if docs == [] then {}
    else
      var d := docs[|docs| - 1];
      Slots(docs[..|docs| - 1]) + d.Keys + (if d == map[] then {} else {TotalSlot})
  }

  /** The record the fold produces. */
  ghost function Tally(docs: seq<Doc>): map<string, int> {
    map s | s in Slots(docs) :: SlotSum(docs, s)
  }

  /** The sum of every value in every document. */
  ghost function GrandSum(docs: seq<Doc>): int {
    if docs == [] then 0 else GrandSum(docs[..|docs| - 1]) + MapSum(docs[|docs| - 1])
  }

  /** The sum of key's values over the documents that contain key. */
  function KeySum(docs: seq<Doc>, k: string): int {
    if docs == [] then 0 else KeySum(docs[..|docs| - 1], k) + Get(docs[|docs| - 1], k)
  }

  /** Some document has key k. */
  predicate Mentions(docs: seq<Doc>, k: string) {
    exists i :: 0 <= i < |docs| && k in docs[i]
  }

  /** Some document has at least one entry. */
  predicate HasEntry(docs: seq<Doc>) {
    exists i :: 0 <= i < |docs| && docs[i] != map[]
  }

  // ---------------------------------------------------------------------------
  // The fold as the page runs it
  // ---------------------------------------------------------------------------

  /**
   * The reduce over the documents, starting from an empty object: for each
   * document, for each of its keys (in whatever order `Object.keys` yields
   * them), bump `total` and then the key's own slot.
   */
  method Aggregate(docs: seq<Doc>) returns (acc: map<string, int>)
    ensures acc == Tally(docs)
  {
    acc := map[];
    for i := 0 to |docs|
      invariant acc == Tally(docs[..i])
    {
      var obj := docs[i];
      var rest := obj.Keys;
      ghost var done: Doc := map[];
      TallyAppendEmpty(docs[..i]);
      while rest != {}
        invariant rest <= obj.Keys
        invariant done.Keys == obj.Keys - rest
        invariant forall k :: k in done ==> done[k] == obj[k]
        invariant acc == Tally(docs[..i] + [done])
        decreases rest
      {
        var key :| key in rest;
        TallyStep(docs[..i], done, key, obj[key]);
        acc := Bump(acc, TotalSlot, obj[key]);
        acc := Bump(acc, key, obj[key]);
        done := done[key := obj[key]];
        rest := rest - {key};
      }
      assert done == obj;
      assert docs[..i + 1] == docs[..i] + [obj];
    }
    assert docs[..|docs|] == docs;
  }

  // ---------------------------------------------------------------------------
  // Lemmas behind Aggregate
  // ---------------------------------------------------------------------------

  /** Removing any one key takes exactly its value out of the document's sum. */
  lemma {:induction false} MapSumRemove(m: Doc, k: string)
    requires k in m
    ensures MapSum(m) == m[k] + MapSum(m - {k})
    decreases |m|
  {
    var j :| j in m && MapSum(m) == m[j] + MapSum(m - {j});
    if j != k {
      var mj, mk := m - {j}, m - {k};
      assert |mj| < |m| && |mk| < |m|;
      MapSumRemove(mj, k);
      MapSumRemove(mk, j);
      assert mj - {k} == mk - {j};
    }
  }

  lemma MapSumInsert(m: Doc, k: string, v: int)
    requires k !in m
    ensures MapSum(m[k := v]) == MapSum(m) + v
  {
    MapSumRemove(m[k := v], k);
    assert m[k := v] - {k} == m;
  }

  /** A slot the fold never creates would hold 0. */
  lemma {:induction false} SlotSumOutside(docs: seq<Doc>, s: string)
    requires s !in Slots(docs)
    ensures SlotSum(docs, s) == 0
  {
    if docs != [] {
      var d := docs[|docs| - 1];
      SlotSumOutside(docs[..|docs| - 1], s);
      if s == TotalSlot {
        assert d == map[];
      }
    }
  }

  /** An empty document changes nothing. */
  lemma TallyAppendEmpty(p: seq<Doc>)
    ensures Tally(p + [map[]]) == Tally(p)
  {
  }

  lemma SlotsStep(p: seq<Doc>, m: Doc, k: string, v: int)
    requires k !in m
    ensures Slots(p + [m[k := v]]) == Slots(p + [m]) + {TotalSlot, k}
  {
  }

  lemma SlotSumStep(p: seq<Doc>, m: Doc, k: string, v: int, s: string)
    requires k !in m
    ensures SlotSum(p + [m[k := v]], s)
         == SlotSum(p + [m], s) + (if s == TotalSlot then v else 0) + (if s == k then v else 0)
  {
    var q, q' := p + [m], p + [m[k := v]];
    assert q[..|q| - 1] == p && q'[..|q'| - 1] == p;
    MapSumInsert(m, k, v);
  }

  /** Get on the record: the slot's sum wherever the slot exists, 0 elsewhere. */
  lemma TallyGet(docs: seq<Doc>, s: string)
    ensures Tally(docs).Keys == Slots(docs)
    ensures Get(Tally(docs), s) == SlotSum(docs, s)
  {
  }

  /** One visit of the inner loop, (key, v), adds v to `total` and v to key. */
  lemma TallyStep(p: seq<Doc>, m: Doc, k: string, v: int)
    requires k !in m
    ensures Bump(Bump(Tally(p + [m]), TotalSlot, v), k, v) == Tally(p + [m[k := v]])
  {
    var q, q' := p + [m], p + [m[k := v]];
    var t, t' := Tally(q), Tally(q');
    var lhs := Bump(Bump(t, TotalSlot, v), k, v);
    SlotsStep(p, m, k, v);
    TallyGet(q, k);
    TallyGet(q', k);
    assert lhs.Keys == t'.Keys;
    forall s | s in t'
      ensures lhs[s] == t'[s]
    {
      assert Get(lhs, s) == Get(t, s) + (if s == TotalSlot then v else 0) + (if s == k then v else 0);
      SlotSumStep(p, m, k, v, s);
      TallyGet(q, s);
      TallyGet(q', s);
    }
  }

  // ---------------------------------------------------------------------------
  // What the fold computes
  // ---------------------------------------------------------------------------

  lemma {:induction false} SlotsMembers(docs: seq<Doc>, s: string)
    ensures s in Slots(docs) <==> Mentions(docs, s) || (s == TotalSlot && HasEntry(docs))
  {
    if docs != [] {
      var p := docs[..|docs| - 1];
      SlotsMembers(p, s);
      if Mentions(p, s) {
        var i :| 0 <= i < |p| && s in p[i];
        assert docs[i] == p[i];
      }
      if HasEntry(p) {
        var i :| 0 <= i < |p| && p[i] != map[];
        assert docs[i] == p[i];
      }
      if Mentions(docs, s) && !(s in docs[|docs| - 1]) {
        var i :| 0 <= i < |docs| && s in docs[i];
        assert p[i] == docs[i];
      }
      if HasEntry(docs) && docs[|docs| - 1] == map[] {
        var i :| 0 <= i < |docs| && docs[i] != map[];
        assert p[i] == docs[i];
      }
    }
  }

  lemma {:induction false} SlotSumSplit(docs: seq<Doc>, s: string)
    ensures SlotSum(docs, s) == (if s == TotalSlot then GrandSum(docs) else 0) + KeySum(docs, s)
  {
    if docs != [] {
      SlotSumSplit(docs[..|docs| - 1], s);
    }
  }

  /**
   * The `total` slot exists exactly when some document has an entry, and then
   * holds the sum of every value in every document plus, once more, the values
   * of keys literally named `total`.
   */
  lemma TallyTotal(docs: seq<Doc>)
    ensures TotalSlot in Tally(docs) <==> HasEntry(docs)
    ensures TotalSlot in Tally(docs) ==> Tally(docs)[TotalSlot] == GrandSum(docs) + KeySum(docs, TotalSlot)
  {
    SlotsMembers(docs, TotalSlot);
    SlotSumSplit(docs, TotalSlot);
    if Mentions(docs, TotalSlot) {
      var i :| 0 <= i < |docs| && TotalSlot in docs[i];
      assert docs[i] != map[];
    }
  }

  /**
   * Every other key has a slot exactly when some document has it, and the slot
   * holds the sum of that key's values.
   */
  lemma TallyKey(docs: seq<Doc>, k: string)
    requires k != TotalSlot
    ensures k in Tally(docs) <==> Mentions(docs, k)
    ensures k in Tally(docs) ==> Tally(docs)[k] == KeySum(docs, k)
  {
    SlotsMembers(docs, k);
    SlotSumSplit(docs, k);
  }

  /** No documents: the empty record, without even a `total` slot. */
  lemma TallyNoDocs()
    ensures Tally([]) == map[]
    ensures TotalSlot !in Tally([])
  {
  }

  /** Without a key named `total`, the grand total is the plain sum of all values. */
  lemma TallyTotalPlain(docs: seq<Doc>)
    requires !Mentions(docs, TotalSlot) && HasEntry(docs)
    ensures TotalSlot in Tally(docs) && Tally(docs)[TotalSlot] == GrandSum(docs)
  {
    TallyTotal(docs);
    KeySumAbsent(docs, TotalSlot);
  }

  lemma {:induction false} KeySumAbsent(docs: seq<Doc>, k: string)
    requires !Mentions(docs, k)
    ensures KeySum(docs, k) == 0
  {
    if docs != [] {
      var p := docs[..|docs| - 1];
      forall i | 0 <= i < |p| ensures k !in p[i] {
        assert docs[i] == p[i];
      }
      KeySumAbsent(p, k);
    }
  }

  // ---------------------------------------------------------------------------
  // Document order does not matter
  // ---------------------------------------------------------------------------

  lemma {:induction false} SlotSumRemove(docs: seq<Doc>, i: nat, s: string)
    requires i < |docs|
    ensures SlotSum(docs, s) == SlotSum(docs[..i] + docs[i + 1..], s) + DocWeight(docs[i], s)
  {
    var n := |docs|;
    var p := docs[..n - 1];
    if i == n - 1 {
      assert docs[..i] + docs[i + 1..] == p;
    } else {
      SlotSumRemove(p, i, s);
      var r := docs[..i] + docs[i + 1..];
      assert r[..|r| - 1] == p[..i] + p[i + 1..];
      assert r[|r| - 1] == docs[n - 1];
      assert SlotSum(r, s) == SlotSum(p[..i] + p[i + 1..], s) + DocWeight(docs[n - 1], s);
    }
  }

  lemma {:induction false} SlotSumPermutation(a: seq<Doc>, b: seq<Doc>, s: string)
    requires multiset(a) == multiset(b)
    ensures SlotSum(a, s) == SlotSum(b, s)
    decreases |a|
  {
    if a == [] {
      assert |b| == |multiset(b)| == 0;
    } else {
      var x := a[|a| - 1];
      assert x in multiset(b);
      var j :| 0 <= j < |b| && b[j] == x;
      var a', b' := a[..|a| - 1], b[..j] + b[j + 1..];
      assert a == a' + [x];
      assert b == b[..j] + [x] + b[j + 1..];
      assert multiset(a) == multiset(a') + multiset{x};
      assert multiset(b) == multiset(b[..j]) + multiset{x} + multiset(b[j + 1..]);
      assert multiset(b') == multiset(b[..j]) + multiset(b[j + 1..]);
      assert multiset(a') == multiset(a) - multiset{x};
      assert multiset(b') == multiset(b) - multiset{x};
      SlotSumPermutation(a', b', s);
      SlotSumRemove(b, j, s);
    }
  }

  /** The record does not depend on the order the documents arrive in. */
  lemma TallyPermutation(a: seq<Doc>, b: seq<Doc>)
    requires multiset(a) == multiset(b)
    ensures Tally(a) == Tally(b)
  {
    forall s ensures s in Slots(a) <==> s in Slots(b) {
      SlotsMembers(a, s);
      SlotsMembers(b, s);
      if Mentions(a, s) {
        var i :| 0 <= i < |a| && s in a[i];
        assert a[i] in multiset(b);
      }
      if Mentions(b, s) {
        var i :| 0 <= i < |b| && s in b[i];
        assert b[i] in multiset(a);
      }
      if HasEntry(a) {
        var i :| 0 <= i < |a| && a[i] != map[];
        assert a[i] in multiset(b);
      }
      if HasEntry(b) {
        var i :| 0 <= i < |b| && b[i] != map[];
        assert b[i] in multiset(a);
      }
    }
    forall s | s in Slots(a) ensures SlotSum(a, s) == SlotSum(b, s) {
      SlotSumPermutation(a, b, s);
    }
  }

  // ---------------------------------------------------------------------------
  // The `reacts` record the page displays
  // ---------------------------------------------------------------------------

  /** How the one-shot read of the `likes` collection stands when the page renders. */
  datatype FetchOutcome = Pending | Failed | Resolved(docs: seq<Doc>)

  /** The `reacts` record: placeholder strings, or the fold's numbers. */
  datatype Reacts = Placeholder(texts: map<string, string>) | Counts(slots: map<string, int>)

  /** A field as the page reads it: a string, a number, or `undefined`. */
  datatype Shown = Text(text: string) | Number(n: int) | Undefined

  const PlaceholderText: string := "..."

  /** The record used while loading or after an error; its unicorn key is spelled `uncorn`. */
  function PlaceholderRecord(): (r: map<string, string>)
    ensures r.Keys == {"total", "fire", "uncorn", "popcorn", "avo"}
    ensures forall k :: k in r ==> r[k] == PlaceholderText
  {
    map["total" := PlaceholderText, "fire" := PlaceholderText, "uncorn" := PlaceholderText,
        "popcorn" := PlaceholderText, "avo" := PlaceholderText]
  }

  /** Reading one field of the `reacts` record. */
  function Field(r: Reacts, name: string): (shown: Shown)
    ensures r.Placeholder? ==> !shown.Number? && (shown.Undefined? <==> name !in r.texts)
    ensures r.Counts? ==> !shown.Text? && (shown.Undefined? <==> name !in r.slots)
  {
    match r
    case Placeholder(t) => if name in t then Text(t[name]) else Undefined
    case Counts(c) => if name in c then Number(c[name]) else Undefined
  }

  /** The fields the reaction sentence reads, in the order it shows them. */
  const DisplayedFields: seq<string> := ["total", "avo", "popcorn", "fire", "unicorn"]

  function Displayed(r: Reacts): (shown: seq<Shown>)
    ensures |shown| == |DisplayedFields|
    ensures forall i :: 0 <= i < |shown| ==> shown[i] == Field(r, DisplayedFields[i])
  {
    seq(|DisplayedFields|, i requires 0 <= i < |DisplayedFields| => Field(r, DisplayedFields[i]))
  }

  /** The `reacts` record: placeholders unless the read has resolved, the fold otherwise. */
  method ComputeReacts(outcome: FetchOutcome) returns (r: Reacts)
    ensures !outcome.Resolved? ==> r == Placeholder(PlaceholderRecord())
    ensures outcome.Resolved? ==> r == Counts(Tally(outcome.docs))
  {
    if outcome.Pending? || outcome.Failed? {
      r := Placeholder(PlaceholderRecord());
    } else {
      var acc := Aggregate(outcome.docs);
      r := Counts(acc);
    }
  }

  /**
   * While the read is pending or failed, total, avo, popcorn and fire show the
   * placeholder and no number; unicorn is undefined, as the record spells it `uncorn`.
   */
  lemma PlaceholderDisplay()
    ensures Displayed(Placeholder(PlaceholderRecord()))
         == [Text(PlaceholderText), Text(PlaceholderText), Text(PlaceholderText),
             Text(PlaceholderText), Undefined]
  {
  }

  /** Once resolved, the `total` field is a number exactly when some document has an entry. */
  lemma ResolvedTotalDisplay(docs: seq<Doc>)
    ensures Field(Counts(Tally(docs)), TotalSlot)
         == if HasEntry(docs) then Number(GrandSum(docs) + KeySum(docs, TotalSlot)) else Undefined
  {
    TallyTotal(docs);
  }

  /**
   * Once resolved, an emoji field (unicorn included) is a number exactly when
   * some document has that key, and the number is the key's sum.
   */
  lemma ResolvedEmojiDisplay(docs: seq<Doc>, name: string)
    requires name != TotalSlot
    ensures Field(Counts(Tally(docs)), name)
         == if Mentions(docs, name) then Number(KeySum(docs, name)) else Undefined
  {
    TallyKey(docs, name);
  }

  /** What a resolved read's record makes the field show: its key's sum, or undefined. */
  ghost function EmojiShown(docs: seq<Doc>, name: string): Shown {
    if Mentions(docs, name) then Number(KeySum(docs, name)) else Undefined
  }

  /**
   * Once the read resolves, the whole sentence: the grand total (undefined
   * without any entry), then avo, popcorn, fire and unicorn, each its key's
   * sum or undefined when no document has the key.
   */
  lemma ResolvedDisplay(docs: seq<Doc>)
    ensures Displayed(Counts(Tally(docs)))
         == [if HasEntry(docs) then Number(GrandSum(docs) + KeySum(docs, TotalSlot)) else Undefined,
             EmojiShown(docs, "avo"), EmojiShown(docs, "popcorn"),
             EmojiShown(docs, "fire"), EmojiShown(docs, "unicorn")]
  {
    ResolvedTotalDisplay(docs);
    ResolvedEmojiDisplay(docs, "avo");
    ResolvedEmojiDisplay(docs, "popcorn");
    ResolvedEmojiDisplay(docs, "fire");
    ResolvedEmojiDisplay(docs, "unicorn");
  }
}
