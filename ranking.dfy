/** Turning search hits into ranked contexts (`RAGService.query`): keep the hits with content,
    a source and a similarity `1 / (1 + distance)` above 0.3, then sort them by similarity,
    highest first, keeping contexts, sources, scores and details together. */
module Ranking {
  import opened Text

  /** The L2 distance the store reports as `hit.score`. */
  type Distance = d: real | d >= 0.0

  datatype Hit = Hit(content: string, source: string, page: nat, chunk: nat, totalPages: nat, distance: Distance)

  /** One entry of `context_details` (the similarity before its four-decimal formatting). */
  datatype Detail = Detail(content: string, source: string, page: nat, totalPages: nat, chunk: nat, similarity: real)

  /** One element of `zip(contexts, sources, scores, context_details)`. */
  datatype Entry = Entry(context: string, source: string, score: real, detail: Detail)

  /** The `limit` of the search; the store returns at most this many hits. */
  const SearchLimit: nat := 5

  const Threshold: real := 0.3

  function Similarity(d: Distance): (s: real)
    ensures 0.0 < s <= 1.0
  {
    1.0 / (1.0 + d)
  }

  /** `if content and source:` and `if similarity > 0.3:`. */
  predicate Kept(h: Hit) {
    h.content != [] && h.source != [] && Similarity(h.distance) > Threshold
  }

  /** The threshold on similarity is a threshold on distance: `1/(1+d) > 0.3` exactly when `d < 7/3`. */
  lemma KeptIff(h: Hit)
    ensures Kept(h) <==> h.content != [] && h.source != [] && h.distance < 7.0 / 3.0
  {
    var s := Similarity(h.distance);
    assert s * (1.0 + h.distance) == 1.0;
    if s > Threshold {
      assert 1.0 == s * (1.0 + h.distance) > Threshold * (1.0 + h.distance);
    }
    if h.distance < 7.0 / 3.0 {
      var c := 1.0 + h.distance;
      assert Threshold * c < 1.0;
      assert (s - Threshold) * c == s * c - Threshold * c;
      PositiveFactor(s - Threshold, c);
    }
  }

  lemma PositiveFactor(x: real, c: real)
    requires c > 0.0 && x * c > 0.0
    ensures x > 0.0
  {
  }

  /** `f"{source} (第 {page}/{total_pages} 页)"`. */
  function SourceInfo(h: Hit): string {
    h.source + " (第 " + NatToString(h.page) + "/" + NatToString(h.totalPages) + " 页)"
  }

  function EntryOf(h: Hit): (e: Entry)
    ensures e.context == h.content && e.score == Similarity(h.distance)
    ensures e.detail == Detail(h.content, h.source, h.page, h.totalPages, h.chunk, Similarity(h.distance))
  {
    var s := Similarity(h.distance);
    Entry(h.content, SourceInfo(h), s, Detail(h.content, h.source, h.page, h.totalPages, h.chunk, s))
  }

  /** The entries the loop over the hits appends, in hit order. */
  function Entries(hits: seq<Hit>): (r: seq<Entry>)
    ensures |r| <= |hits|
  {
    if hits == [] then []
    else (if Kept(hits[0]) then [EntryOf(hits[0])] else []) + Entries(hits[1..])
  }

  lemma {:induction false} EntriesAppend(a: seq<Hit>, b: seq<Hit>)
    ensures Entries(a + b) == Entries(a) + Entries(b)
  {
    if a == [] {
      assert a + b == b;
    } else {
      var part := if Kept(a[0]) then [EntryOf(a[0])] else [];
      assert (a + b)[0] == a[0] && (a + b)[1..] == a[1..] + b;
      assert Entries(a + b) == part + Entries(a[1..] + b);
      EntriesAppend(a[1..], b);
      assert part + (Entries(a[1..]) + Entries(b)) == (part + Entries(a[1..])) + Entries(b);
    }
  }

  /** An entry comes from a kept hit, and every kept hit gives an entry. */
  lemma {:induction false} EntriesMembers(hits: seq<Hit>)
    ensures forall e :: e in Entries(hits) ==> exists h :: h in hits && Kept(h) && e == EntryOf(h)
    ensures forall h :: h in hits && Kept(h) ==> EntryOf(h) in Entries(hits)
  {
    if hits != [] {
      EntriesMembers(hits[1..]);
      assert forall h :: h in hits[1..] ==> h in hits;
      assert forall h :: h in hits ==> h == hits[0] || h in hits[1..];
    }
  }

  /** No entry survives exactly when no hit is kept. */
  lemma {:induction false} EntriesEmptyIff(hits: seq<Hit>)
    ensures Entries(hits) == [] <==> forall h :: h in hits ==> !Kept(h)
  {
    if hits != [] {
      EntriesEmptyIff(hits[1..]);
      assert forall h :: h in hits <==> h == hits[0] || h in hits[1..];
    }
  }

  function ContextsOf(es: seq<Entry>): (r: seq<string>)
    ensures |r| == |es| && forall k :: 0 <= k < |es| ==> r[k] == es[k].context
  {
    seq(|es|, k requires 0 <= k < |es| => es[k].context)
  }

  function SourcesOf(es: seq<Entry>): (r: seq<string>)
    ensures |r| == |es| && forall k :: 0 <= k < |es| ==> r[k] == es[k].source
  {
    seq(|es|, k requires 0 <= k < |es| => es[k].source)
  }

  function ScoresOf(es: seq<Entry>): (r: seq<real>)
    ensures |r| == |es| && forall k :: 0 <= k < |es| ==> r[k] == es[k].score
  {
    seq(|es|, k requires 0 <= k < |es| => es[k].score)
  }

  function DetailsOf(es: seq<Entry>): (r: seq<Detail>)
    ensures |r| == |es| && forall k :: 0 <= k < |es| ==> r[k] == es[k].detail
  {
    seq(|es|, k requires 0 <= k < |es| => es[k].detail)
  }

  /** The loop over the hits that fills the four parallel lists. */
  method CollectContexts(hits: seq<Hit>) returns (contexts: seq<string>, sources: seq<string>, scores: seq<real>, details: seq<Detail>)
    ensures contexts == ContextsOf(Entries(hits)) && sources == SourcesOf(Entries(hits))
    ensures scores == ScoresOf(Entries(hits)) && details == DetailsOf(Entries(hits))
  {
    contexts, sources, scores, details := [], [], [], [];
    var i := 0;
    while i < |hits|
      invariant i <= |hits|
      invariant contexts == ContextsOf(Entries(hits[..i])) && sources == SourcesOf(Entries(hits[..i]))
      invariant scores == ScoresOf(Entries(hits[..i])) && details == DetailsOf(Entries(hits[..i]))
    {
      var hit := hits[i];
      EntriesStep(hits, i);
      if hit.content != [] && hit.source != [] {
        var similarity := 1.0 / (1.0 + hit.distance);
        if similarity > 0.3 {
          ProjectionsAppend(Entries(hits[..i]), EntryOf(hit));
          contexts := contexts + [hit.content];
          sources := sources + [SourceInfo(hit)];
          scores := scores + [similarity];
          details := details + [Detail(hit.content, hit.source, hit.page, hit.totalPages, hit.chunk, similarity)];
        }
      }
      i := i + 1;
    }
    assert hits[..i] == hits;
  }

  lemma EntriesStep(hits: seq<Hit>, i: nat)
    requires i < |hits|
    ensures Entries(hits[..i + 1]) == Entries(hits[..i]) + (if Kept(hits[i]) then [EntryOf(hits[i])] else [])
  {
    assert hits[..i + 1] == hits[..i] + [hits[i]];
    EntriesAppend(hits[..i], [hits[i]]);
    assert Entries([hits[i]]) == (if Kept(hits[i]) then [EntryOf(hits[i])] else []) + Entries([]);
  }

  lemma ProjectionsAppend(es: seq<Entry>, e: Entry)
    ensures ContextsOf(es + [e]) == ContextsOf(es) + [e.context]
    ensures SourcesOf(es + [e]) == SourcesOf(es) + [e.source]
    ensures ScoresOf(es + [e]) == ScoresOf(es) + [e.score]
    ensures DetailsOf(es + [e]) == DetailsOf(es) + [e.detail]
  {
  }

  /** Entries in descending order of similarity. */
  ghost predicate Descending(es: seq<Entry>) {
    forall i, j :: 0 <= i < j < |es| ==> es[i].score >= es[j].score
  }

  /** Puts `x` before the first entry whose similarity is not above its own. */
  function Insert(x: Entry, ys: seq<Entry>): seq<Entry> {
    if ys == [] || ys[0].score <= x.score then [x] + ys else [ys[0]] + Insert(x, ys[1..])
  }

  /** `list.sort(key=score, reverse=True)`: a stable sort, highest similarity first. */
  function SortDesc(es: seq<Entry>): seq<Entry> {
    if es == [] then [] else Insert(es[0], SortDesc(es[1..]))
  }

  /** The insertion adds `x` and loses nothing. */
  lemma {:induction false} InsertPermutes(x: Entry, ys: seq<Entry>)
    ensures multiset(Insert(x, ys)) == multiset(ys) + multiset{x}
  {
    if ys != [] && ys[0].score > x.score {
      InsertPermutes(x, ys[1..]);
      assert ys == [ys[0]] + ys[1..];
    }
  }

  /** An entry followed by a descending sequence of entries no more similar than it. */
  lemma DescendingCons(h: Entry, t: seq<Entry>)
    requires Descending(t) && forall k :: 0 <= k < |t| ==> t[k].score <= h.score
    ensures Descending([h] + t)
  {
    var r := [h] + t;
    forall i, j | 0 <= i < j < |r| ensures r[i].score >= r[j].score {
      assert r[j] == t[j - 1];
      if i > 0 {
        assert r[i] == t[i - 1];
      }
    }
  }

  lemma DescendingTail(ys: seq<Entry>)
    requires Descending(ys) && ys != []
    ensures Descending(ys[1..]) && forall k :: 0 <= k < |ys[1..]| ==> ys[1..][k].score <= ys[0].score
  {
    forall i, j | 0 <= i < j < |ys[1..]| ensures ys[1..][i].score >= ys[1..][j].score {
      assert ys[1..][i] == ys[i + 1] && ys[1..][j] == ys[j + 1];
    }
    forall k | 0 <= k < |ys[1..]| ensures ys[1..][k].score <= ys[0].score {
      assert ys[1..][k] == ys[k + 1];
    }
  }

  /** A bound on the similarities survives the insertion of an entry within it. */
  lemma {:induction false} InsertBound(x: Entry, ys: seq<Entry>, v: real)
    requires x.score <= v && forall k :: 0 <= k < |ys| ==> ys[k].score <= v
    ensures forall k :: 0 <= k < |Insert(x, ys)| ==> Insert(x, ys)[k].score <= v
  {
    if ys != [] && ys[0].score > x.score {
      assert forall k :: 0 <= k < |ys[1..]| ==> ys[1..][k] == ys[k + 1];
      InsertBound(x, ys[1..], v);
    }
  }

  /** Inserting into a descending sequence keeps it descending. */
  lemma {:induction false} InsertSorted(x: Entry, ys: seq<Entry>)
    requires Descending(ys)
    ensures Descending(Insert(x, ys))
  {
    if ys == [] {
      DescendingCons(x, ys);
    } else if ys[0].score <= x.score {
      assert forall k :: 0 <= k < |ys| ==> ys[k].score <= ys[0].score;
      DescendingCons(x, ys);
    } else {
      DescendingTail(ys);
      InsertSorted(x, ys[1..]);
      InsertBound(x, ys[1..], ys[0].score);
      DescendingCons(ys[0], Insert(x, ys[1..]));
    }
  }

  /** The sort orders by similarity and only reorders: it is a permutation of its input. */
  lemma {:induction false} SortDescShape(es: seq<Entry>)
    ensures Descending(SortDesc(es))
    ensures multiset(SortDesc(es)) == multiset(es)
  {
    if es != [] {
      SortDescShape(es[1..]);
      InsertPermutes(es[0], SortDesc(es[1..]));
      InsertSorted(es[0], SortDesc(es[1..]));
      assert es == [es[0]] + es[1..];
    }
  }

  /** The entries with a given similarity. */
  function WithScore(es: seq<Entry>, v: real): seq<Entry> {
    if es == [] then [] else (if es[0].score == v then [es[0]] else []) + WithScore(es[1..], v)
  }

  lemma WithScoreCons(h: Entry, t: seq<Entry>, v: real)
    ensures WithScore([h] + t, v) == (if h.score == v then [h] else []) + WithScore(t, v)
  {
    assert ([h] + t)[1..] == t;
  }

  lemma {:induction false} InsertWithScore(x: Entry, ys: seq<Entry>, v: real)
    ensures WithScore(Insert(x, ys), v) == (if x.score == v then [x] else []) + WithScore(ys, v)
  {
    if ys == [] || ys[0].score <= x.score {
      WithScoreCons(x, ys, v);
    } else {
      var h, t := ys[0], ys[1..];
      InsertWithScore(x, t, v);
      WithScoreCons(h, Insert(x, t), v);
      WithScoreCons(h, t, v);
      assert ys == [h] + t;
      var a, b := if x.score == v then [x] else [], if h.score == v then [h] else [];
      if x.score == v && h.score == v {
        assert false;
      }
      assert b + (a + WithScore(t, v)) == a + (b + WithScore(t, v));
    }
  }

  /** Stability: among entries of equal similarity the sort keeps the original order. */
  lemma {:induction false} SortDescStable(es: seq<Entry>, v: real)
    ensures WithScore(SortDesc(es), v) == WithScore(es, v)
  {
    if es != [] {
      SortDescStable(es[1..], v);
      InsertWithScore(es[0], SortDesc(es[1..]), v);
    }
  }

  /** The ranked entries, from which the four lists are unzipped again. */
  function Ranked(hits: seq<Hit>): seq<Entry> {
    SortDesc(Entries(hits))
  }

  /** After the sort every position of the four lists still holds the content, source
      description, similarity and details of one and the same kept hit, and there are no
      more of them than hits. */
  lemma RankedAligned(hits: seq<Hit>)
    ensures |Ranked(hits)| <= |hits|
    ensures Descending(Ranked(hits))
    ensures forall k :: 0 <= k < |Ranked(hits)| ==>
      exists h :: h in hits && Kept(h) && Ranked(hits)[k] == EntryOf(h)
  {
    SortDescShape(Entries(hits));
    EntriesMembers(hits);
    var es := Entries(hits);
    forall k | 0 <= k < |Ranked(hits)|
      ensures exists h :: h in hits && Kept(h) && Ranked(hits)[k] == EntryOf(h)
    {
      assert Ranked(hits)[k] in multiset(es);
      assert Ranked(hits)[k] in es;
    }
    assert |Ranked(hits)| == |multiset(Ranked(hits))| == |multiset(es)| == |es|;
  }

  /** Every ranked entry passed the threshold. */
  lemma RankedAboveThreshold(hits: seq<Hit>)
    ensures forall e :: e in Ranked(hits) ==> e.score > Threshold && e.context != []
  {
    RankedAligned(hits);
    forall e | e in Ranked(hits) ensures e.score > Threshold && e.context != [] {
      var k :| 0 <= k < |Ranked(hits)| && Ranked(hits)[k] == e;
    }
  }

  /** One element of `source_items`. */
  datatype SourceItem = SourceItem(source: string, similarity: real)

  function SourceItems(es: seq<Entry>): (r: seq<SourceItem>)
    ensures |r| == |es| && forall k :: 0 <= k < |es| ==> r[k] == SourceItem(es[k].source, es[k].score)
  {
    seq(|es|, k requires 0 <= k < |es| => SourceItem(es[k].source, es[k].score))
  }

  /** The loop over `zip(sources, scores)` that builds `source_items`. */
  method CollectSourceItems(sources: seq<string>, scores: seq<real>) returns (items: seq<SourceItem>)
    requires |sources| == |scores|
    ensures |items| == |sources|
    ensures forall k :: 0 <= k < |items| ==> items[k] == SourceItem(sources[k], scores[k])
  {
    items := [];
    var i := 0;
    while i < |sources|
      invariant i <= |sources| && |items| == i
      invariant forall k :: 0 <= k < i ==> items[k] == SourceItem(sources[k], scores[k])
    {
      items := items + [SourceItem(sources[i], scores[i])];
      i := i + 1;
    }
  }
}
