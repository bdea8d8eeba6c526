/**
 Reciprocal rank fusion of the text and vector result lists (internal/osearch/recall.go). Scores are
 exact: rounding is not modelled.
 */
module Fusion {
  import opened Sorting

  datatype Hit = Hit(docId: string, score: real, textRank: nat, vectorRank: nat)

  const RRF_K := 60.0

  function Term(rank: nat): real { 1.0 / (RRF_K + rank as real) }

  /** 1-based position, 0 when absent. */
  function Rank(list: seq<string>, d: string): nat {
    if list == [] then 0
    else if list[|list| - 1] == d then |list|
    else Rank(list[..|list| - 1], d)
  }

  function Share(rank: nat): real { if rank == 0 then 0.0 else Term(rank) }

  /** The sum of 1/(60 + rank) over the lists containing d. */
  function Score(text: seq<string>, vec: seq<string>, d: string): real {
    Share(Rank(text, d)) + Share(Rank(vec, d))
  }

  predicate Distinct(s: seq<string>) { forall i, j :: 0 <= i < j < |s| ==> s[i] != s[j] }

  lemma {:induction false} RankMeaning(list: seq<string>, d: string)
    ensures Rank(list, d) <= |list|
    ensures Rank(list, d) == 0 <==> d !in list
    ensures Rank(list, d) > 0 ==> list[Rank(list, d) - 1] == d
  {
    if list != [] && list[|list| - 1] != d {
      RankMeaning(list[..|list| - 1], d);
      assert list == list[..|list| - 1] + [list[|list| - 1]];
    }
  }

  lemma RankSnoc(list: seq<string>, i: nat, d: string)
    requires i < |list|
    ensures Rank(list[..i + 1], d) == if list[i] == d then i + 1 else Rank(list[..i], d)
  {
    assert list[..i + 1][..i] == list[..i] && list[..i + 1][i] == list[i];
  }

  // ---- What fusion computes ----

  function HitFor(text: seq<string>, vec: seq<string>, d: string): Hit {
    Hit(d, Score(text, vec, d), Rank(text, d), Rank(vec, d))
  }

  /** The map of hits once `text` and `vec` have been read. */
  ghost predicate Fused(text: seq<string>, vec: seq<string>, m: map<string, Hit>) {
    && (forall d :: d in m <==> d in text || d in vec)
    && (forall d :: d in m ==> m[d] == HitFor(text, vec, d))
  }

  lemma TextStep(text: seq<string>, i: nat, m: map<string, Hit>)
    requires i < |text| && Distinct(text) && Fused(text[..i], [], m)
    ensures Fused(text[..i + 1], [], m[text[i] := Hit(text[i], Term(i + 1), i + 1, 0)])
  {
    assert text[..i + 1] == text[..i] + [text[i]];
    forall d ensures Rank(text[..i + 1], d) == if text[i] == d then i + 1 else Rank(text[..i], d) {
      RankSnoc(text, i, d);
    }
  }

  lemma VectorStep(text: seq<string>, vec: seq<string>, i: nat, m: map<string, Hit>)
    requires i < |vec| && Distinct(vec) && Fused(text, vec[..i], m)
    ensures var d := vec[i];
            Fused(text, vec[..i + 1],
                  m[d := if d in m then m[d].(vectorRank := i + 1, score := m[d].score + Term(i + 1))
                         else Hit(d, Term(i + 1), 0, i + 1)])
  {
    assert vec[..i + 1] == vec[..i] + [vec[i]];
    assert vec[i] !in vec[..i];
    RankMeaning(vec[..i], vec[i]);
    RankMeaning(text, vec[i]);
    forall d ensures Rank(vec[..i + 1], d) == if vec[i] == d then i + 1 else Rank(vec[..i], d) {
      RankSnoc(vec, i, d);
    }
  }

  // ---- Sorting by score ----

  predicate Higher(a: Hit, b: Hit) { a.score > b.score }

  /** Stable, highest score first. */
  function SortHits(s: seq<Hit>): seq<Hit> { Sort(Higher, s) }

  predicate Descending(s: seq<Hit>) { forall i, j :: 0 <= i < j < |s| ==> s[i].score >= s[j].score }

  lemma SortFacts(s: seq<Hit>)
    ensures Descending(SortHits(s)) && multiset(SortHits(s)) == multiset(s)
  {
    SortOrders(Higher, s);
    SortKeeps(Higher, s);
    assert forall i, j :: 0 <= i < j < |SortHits(s)| ==> !Higher(SortHits(s)[j], SortHits(s)[i]);
  }

  // ---- The returned list ----

  ghost predicate DistinctDocs(hits: seq<Hit>) {
    forall i, j :: 0 <= i < j < |hits| ==> hits[i].docId != hits[j].docId
  }

  /** Every hit of the map, once each. */
  ghost predicate Enumerates(m: map<string, Hit>, all: seq<Hit>) {
    && DistinctDocs(all)
    && (forall i :: 0 <= i < |all| ==> all[i].docId in m && all[i] == m[all[i].docId])
    && (forall d :: d in m ==> m[d] in all)
  }

  lemma {:induction false} CountOne(all: seq<Hit>, h: Hit)
    requires DistinctDocs(all)
    ensures multiset(all)[h] <= 1
  {
    if all != [] {
      CountOne(all[1..], h);
      assert all == [all[0]] + all[1..];
      var rest := all[1..];
      forall i | 0 <= i < |rest| ensures rest[i] != all[0] {
        assert rest[i] == all[i + 1];
      }
    }
  }

  /** Sorting an enumeration enumerates the same map. */
  lemma SortedEnumerates(m: map<string, Hit>, all: seq<Hit>)
    requires Enumerates(m, all) && forall d :: d in m ==> m[d].docId == d
    ensures Enumerates(m, SortHits(all)) && |SortHits(all)| == |all|
  {
    var s := SortHits(all);
    SortFacts(all);
    assert |s| == |multiset(s)| == |multiset(all)| == |all|;
    forall h ensures h in s <==> h in all {
      assert h in multiset(s) <==> h in multiset(all);
    }
    forall i, j | 0 <= i < j < |s| ensures s[i].docId != s[j].docId {
      if s[i].docId == s[j].docId {
        assert s[i] in s && s[j] in s;
        assert s[i] == m[s[i].docId] == s[j];
        CountOne(all, s[i]);
        TwiceCountsTwo(s, i, j);
      }
    }
    forall i | 0 <= i < |s| ensures s[i].docId in m && s[i] == m[s[i].docId] {
      assert s[i] in s;
    }
  }

  lemma TwiceCountsTwo(s: seq<Hit>, i: nat, j: nat)
    requires i < j < |s| && s[i] == s[j]
    ensures multiset(s)[s[i]] >= 2
  {
    assert s == s[..i] + [s[i]] + s[i + 1..j] + [s[j]] + s[j + 1..];
  }

  /** The fused hits are exactly the documents found, and the returned ones are the best of them. */
  ghost predicate TopHits(text: seq<string>, vec: seq<string>, topK: nat, hits: seq<Hit>) {
    && |hits| <= topK && DistinctDocs(hits) && Descending(hits)
    && (forall i :: 0 <= i < |hits| ==>
          (hits[i].docId in text || hits[i].docId in vec) && hits[i] == HitFor(text, vec, hits[i].docId))
    && (forall d :: (d in text || d in vec) && !Returned(hits, d) ==>
          |hits| == topK && forall i :: 0 <= i < |hits| ==> Score(text, vec, d) <= hits[i].score)
  }

  predicate Returned(hits: seq<Hit>, d: string) {
    exists j :: 0 <= j < |hits| && hits[j].docId == d
  }

  lemma PrefixIsTop(text: seq<string>, vec: seq<string>, topK: nat, m: map<string, Hit>, s: seq<Hit>)
    requires topK > 0 && Fused(text, vec, m) && Enumerates(m, s) && Descending(s)
    ensures TopHits(text, vec, topK, if |s| > topK then s[..topK] else s)
  {
    var hits := if |s| > topK then s[..topK] else s;
    forall d | (d in text || d in vec) && !Returned(hits, d)
      ensures |hits| == topK && forall i :: 0 <= i < |hits| ==> Score(text, vec, d) <= hits[i].score
    {
      assert d in m && m[d] in s && m[d] == HitFor(text, vec, d);
      LeftOutScoresLess(s, hits, m[d]);
    }
  }

  /** A hit beyond the prefix is outscored by the whole prefix. */
  lemma LeftOutScoresLess(s: seq<Hit>, hits: seq<Hit>, h: Hit)
    requires Descending(s) && hits <= s && h in s && !Returned(hits, h.docId)
    ensures |hits| < |s| && forall i :: 0 <= i < |hits| ==> h.score <= hits[i].score
  {
    var k :| 0 <= k < |s| && s[k] == h;
    assert forall i :: 0 <= i < |hits| ==> hits[i] == s[i] && hits[i].docId != h.docId;
  }

  method FuseText(text: seq<string>) returns (fused: map<string, Hit>)
    requires Distinct(text)
    ensures Fused(text, [], fused)
  {
    fused := map[];
    var i := 0;
    while i < |text|
      invariant 0 <= i <= |text| && Fused(text[..i], [], fused)
    {
      TextStep(text, i, fused);
      fused := fused[text[i] := Hit(text[i], Term(i + 1), i + 1, 0)];
      i := i + 1;
    }
    assert text[..i] == text;
  }

  /** The whole fusion; the hits leave the map in no particular order before they are sorted. */
  method Fuse(text: seq<string>, vec: seq<string>, topK: nat) returns (hits: seq<Hit>)
    requires topK > 0 && Distinct(text) && Distinct(vec)
    ensures TopHits(text, vec, topK, hits)
  {
    var fused := FuseText(text);
    var i := 0;
    while i < |vec|
      invariant 0 <= i <= |vec| && Fused(text, vec[..i], fused)
    {
      VectorStep(text, vec, i, fused);
      var d := vec[i];
      if d in fused {
        var got := fused[d];
        fused := fused[d := got.(vectorRank := i + 1, score := got.score + Term(i + 1))];
      } else {
        fused := fused[d := Hit(d, Term(i + 1), 0, i + 1)];
      }
      i := i + 1;
    }
    assert vec[..i] == vec;
    var all := Collect(fused);
    SortedEnumerates(fused, all);
    SortFacts(all);
    var sorted := SortHits(all);
    PrefixIsTop(text, vec, topK, fused, sorted);
    hits := if |sorted| > topK then sorted[..topK] else sorted;
  }

  method Collect(fused: map<string, Hit>) returns (all: seq<Hit>)
    requires forall d :: d in fused ==> fused[d].docId == d
    ensures Enumerates(fused, all)
  {
    var keys := fused.Keys;
    all := [];
    while keys != {}
      invariant keys <= fused.Keys && DistinctDocs(all)
      invariant forall i :: 0 <= i < |all| ==>
                  all[i].docId in fused && all[i].docId !in keys && all[i] == fused[all[i].docId]
      invariant forall d :: d in fused && d !in keys ==> fused[d] in all
      decreases keys
    {
      var d :| d in keys;
      all := all + [fused[d]];
      keys := keys - {d};
    }
  }

  // ---- What the constant buys ----

  lemma TermFalls(p: nat, q: nat)
    requires p <= q
    ensures Term(q) <= Term(p) && 0.0 < Term(q)
  {
    var a, b := RRF_K + p as real, RRF_K + q as real;
    assert 0.0 < a <= b;
    assert 1.0 / b <= 1.0 / a;
  }

  /** A document in both lists at rank 61 or better outscores every document found by one list only. */
  lemma BothBeatsSingle(text: seq<string>, vec: seq<string>, d: string, e: string)
    requires 0 < Rank(text, d) <= 61 && 0 < Rank(vec, d) <= 61
    requires Rank(text, e) == 0 || Rank(vec, e) == 0
    ensures Score(text, vec, d) > Score(text, vec, e)
  {
    TermFalls(Rank(text, d), 61);
    TermFalls(Rank(vec, d), 61);
    if Rank(text, e) > 0 { TermFalls(1, Rank(text, e)); }
    if Rank(vec, e) > 0 { TermFalls(1, Rank(vec, e)); }
    assert Term(61) == 1.0 / 121.0 && Term(1) == 1.0 / 61.0;
    assert Score(text, vec, d) >= 2.0 * Term(61);
    assert Score(text, vec, e) <= Term(1);
    assert 2.0 * (1.0 / 121.0) > 1.0 / 61.0;
  }

  /** 61 is the best such bound: rank 62 in both lists only ties with the first of one list. */
  lemma Rank62OnlyTies(text: seq<string>, vec: seq<string>, d: string, e: string)
    requires Rank(text, d) == 62 && Rank(vec, d) == 62 && Rank(text, e) == 1 && Rank(vec, e) == 0
    ensures Score(text, vec, d) == Score(text, vec, e)
  {
    assert Term(62) == 1.0 / 122.0 && Term(1) == 1.0 / 61.0;
    assert 2.0 * (1.0 / 122.0) == 1.0 / 61.0;
  }
}
