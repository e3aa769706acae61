/** What an answer without a hit in the cache consists of (backend/internal/services/qa_service.go). */
module Answers {
  import opened Text
  import opened Documents
  import opened Lists
  import opened QACache
  import opened QAService

  // ----- The confidence -----

  /** The scores, added from the first on. */
  function Total(hits: seq<Hit>): real {
    if hits == [] then 0.0 else hits[0].score + Total(hits[1..])
  }

  lemma {:induction false} TotalGrows(hits: seq<Hit>, hit: Hit)
    ensures Total(hits + [hit]) == Total(hits) + hit.score
    decreases |hits|
  {
    if hits == [] {
      assert [hit][1..] == [];
    } else {
      assert (hits + [hit])[1..] == hits[1..] + [hit];
      TotalGrows(hits[1..], hit);
    }
  }

  lemma {:induction false} SumIsTotal(hits: seq<Hit>)
    ensures SumScores(hits) == Total(hits)
    decreases |hits|
  {
    if hits != [] {
      var n := |hits| - 1;
      SumIsTotal(hits[..n]);
      TotalGrows(hits[..n], hits[n]);
      assert hits[..n] + [hits[n]] == hits;
    }
  }

  predicate IsHundredth(c: real) { c * 100.0 == (c * 100.0).Floor as real }

  /** The mean of the scores, kept within [0, 1] and rounded to hundredths. */
  ghost predicate IsRoundedMean(c: real, hits: seq<Hit>)
    requires hits != []
  {
    var n, total := |hits| as real, Total(hits);
    && 0.0 <= c <= 1.0 && IsHundredth(c)
    && (total < 0.0 ==> c == 0.0)
    && (total > n ==> c == 1.0)
    && (0.0 <= total <= n ==> total - 0.005 * n <= c * n <= total + 0.005 * n)
  }

  lemma MeanTimesCount(total: real, n: real)
    requires n > 0.0
    ensures (total / n) * n == total
    ensures total < 0.0 ==> total / n < 0.0
    ensures total > n ==> total / n > 1.0
    ensures 0.0 <= total <= n ==> 0.0 <= total / n <= 1.0
  {
  }

  /** Rounding to hundredths. */
  lemma RoundedNear(x: real)
    requires 0.0 <= x <= 1.0
    ensures var c := (x * 100.0 + 0.5).Floor as real / 100.0;
            0.0 <= c <= 1.0 && x - 0.005 <= c <= x + 0.005 && IsHundredth(c)
            && (x == 0.0 ==> c == 0.0) && (x == 1.0 ==> c == 1.0)
  {
    var k := (x * 100.0 + 0.5).Floor;
    assert 0 <= k <= 100;
    assert k as real / 100.0 * 100.0 == k as real;
  }

  lemma ConfidenceIsRoundedMean(hits: seq<Hit>)
    requires hits != []
    ensures IsRoundedMean(Confidence(hits), hits)
  {
    hide Total, SumScores, IsHundredth;
    SumIsTotal(hits);
    var n, total, c := |hits| as real, Total(hits), Confidence(hits);
    MeanTimesCount(total, n);
    ConfidenceIsNear(hits, total / n);
    hide Confidence;
    if 0.0 <= total <= n {
      ScaledNear(c, total / n, n, total);
    }
  }

  lemma ScaledNear(c: real, x: real, n: real, total: real)
    requires x - 0.005 <= c <= x + 0.005 && n > 0.0 && x * n == total
    ensures total - 0.005 * n <= c * n <= total + 0.005 * n
  {
    WithinScaled(c, x, 0.005, n, total);
  }

  lemma ConfidenceIsNear(hits: seq<Hit>, mean: real)
    requires hits != [] && mean == SumScores(hits) / |hits| as real
    ensures var x := if mean < 0.0 then 0.0 else if mean > 1.0 then 1.0 else mean;
            var c := Confidence(hits);
            0.0 <= c <= 1.0 && IsHundredth(c) && x - 0.005 <= c <= x + 0.005
            && (x == 0.0 ==> c == 0.0) && (x == 1.0 ==> c == 1.0)
  {
    hide IsHundredth, SumScores;
    RoundedNear(if mean < 0.0 then 0.0 else if mean > 1.0 then 1.0 else mean);
  }

  // ----- The used documents -----

  ghost predicate Ascending(s: seq<string>) {
    forall i, j | 0 <= i < j < |s| :: Less(s[i], s[j])
  }

  lemma {:induction false} InsertedInOrder(x: string, s: seq<string>)
    requires Ascending(s)
    ensures Ascending(InsertSorted(x, s)) && forall y :: y in InsertSorted(x, s) <==> y == x || y in s
    decreases |s|
  {
    hide Less;
    if s != [] && x != s[0] {
      LessIsTotal(x, s[0]);
      if Less(x, s[0]) {
        forall j | 0 < j < |s|
          ensures Less(x, s[j])
        {
          LessIsTransitive(x, s[0], s[j]);
        }
      } else {
        InsertedInOrder(x, s[1..]);
        var rest := InsertSorted(x, s[1..]);
        forall j | 0 <= j < |rest|
          ensures Less(s[0], rest[j])
        {
          assert rest[j] in rest;
          if rest[j] != x {
            var k :| 0 <= k < |s[1..]| && s[1..][k] == rest[j];
            assert s[k + 1] == rest[j];
          }
        }
        assert s == [s[0]] + s[1..];
      }
    }
  }

  ghost predicate HasID(hits: seq<Hit>, x: string) {
    exists i :: 0 <= i < |hits| && hits[i].documentID == x
  }

  lemma HasIDUnfolds(hits: seq<Hit>, x: string)
    requires hits != []
    ensures HasID(hits, x) <==> hits[0].documentID == x || HasID(hits[1..], x)
  {
    if HasID(hits[1..], x) {
      var i :| 0 <= i < |hits[1..]| && hits[1..][i].documentID == x;
      assert hits[i + 1].documentID == x;
    }
    if HasID(hits, x) && hits[0].documentID != x {
      var i :| 0 <= i < |hits| && hits[i].documentID == x;
      assert hits[1..][i - 1].documentID == x;
    }
  }

  /** The ids are listed in strict order, so none twice, and they are the ids of the hits that have one. */
  ghost predicate AreUsed(used: seq<string>, hits: seq<Hit>) {
    Ascending(used) && forall x :: x in used <==> x != "" && HasID(hits, x)
  }

  lemma {:induction false} UsedDocumentsAreUsed(hits: seq<Hit>)
    ensures AreUsed(UsedDocuments(hits), hits)
    decreases |hits|
  {
    hide Less, Ascending, InsertSorted, HasID;
    if hits == [] {
      NothingUsed();
    } else {
      UsedDocumentsAreUsed(hits[1..]);
      var rest := UsedDocuments(hits[1..]);
      InsertedInOrder(hits[0].documentID, rest);
      forall x
        ensures HasID(hits, x) <==> hits[0].documentID == x || HasID(hits[1..], x)
      {
        HasIDUnfolds(hits, x);
      }
    }
  }

  lemma NothingUsed()
    ensures AreUsed([], [])
  {
  }

  // ----- The citations -----

  predicate Cites(c: Citation, hit: Hit) {
    c.url == hit.uri && c.title == hit.title
  }

  ghost predicate IsCited(citations: seq<Citation>, hit: Hit) {
    exists j :: 0 <= j < |citations| && Cites(citations[j], hit)
  }

  /** Every citation is one of the hits, and none is listed twice. */
  ghost predicate AreCited(citations: seq<Citation>, hits: seq<Hit>) {
    && (forall j | 0 <= j < |citations| ::
          exists i :: 0 <= i < |hits| && Cites(citations[j], hits[i]) && citations[j].sourceType == hits[i].sourceType)
    && forall j, k | 0 <= j < k < |citations| ::
         citations[j].url + "|" + citations[j].title != citations[k].url + "|" + citations[k].title
  }

  lemma {:induction false} DedupTakesFromItems<T, K>(items: seq<T>, key: T -> K, j: nat)
    requires j < |DedupBy(items, key)|
    ensures DedupBy(items, key)[j] in items
    decreases |items|
  {
    var n := |items| - 1;
    if j < |DedupBy(items[..n], key)| {
      DedupTakesFromItems(items[..n], key, j);
    }
  }

  lemma CitationsAreHits(hits: seq<Hit>)
    ensures AreCited(Deduped(CitationsOf(hits)), hits)
  {
    var items := CitationsOf(hits);
    CitationsAreListedOnce(items);
    forall j | 0 <= j < |Deduped(items)|
      ensures exists i :: 0 <= i < |hits| && Cites(Deduped(items)[j], hits[i])
                          && Deduped(items)[j].sourceType == hits[i].sourceType
    {
      DedupTakesFromItems(items, CitationKey, j);
      var i :| 0 <= i < |items| && items[i] == Deduped(items)[j];
      assert Cites(Deduped(items)[j], hits[i]);
    }
    forall j, k | 0 <= j < k < |Deduped(items)|
      ensures Deduped(items)[j].url + "|" + Deduped(items)[j].title
              != Deduped(items)[k].url + "|" + Deduped(items)[k].title
    {
      assert CitationKey(Deduped(items)[j]) != CitationKey(Deduped(items)[k]);
    }
  }

  /** Two hits whose URI and title cannot be told apart once joined by a bar. */
  ghost predicate Blurred(hits: seq<Hit>) {
    exists i, j :: 0 <= i < |hits| && 0 <= j < |hits|
                   && hits[i].uri + "|" + hits[i].title == hits[j].uri + "|" + hits[j].title
                   && !(hits[i].uri == hits[j].uri && hits[i].title == hits[j].title)
  }

  lemma KeyIsListed(hits: seq<Hit>, i: nat) returns (k: nat)
    requires i < |hits|
    ensures k < |Deduped(CitationsOf(hits))|
    ensures var c := Deduped(CitationsOf(hits))[k]; c.url + "|" + c.title == hits[i].uri + "|" + hits[i].title
  {
    var items := CitationsOf(hits);
    CitationsAreListedOnce(items);
    assert HasKey(Deduped(items), CitationKey, CitationKey(items[i]));
    k :| 0 <= k < |Deduped(items)| && CitationKey(Deduped(items)[k]) == CitationKey(items[i]);
  }

  /** Every hit is cited by its URI and title, exactly when no two different pairs of them look the same once joined. */
  lemma EveryHitIsCitedIff(hits: seq<Hit>)
    ensures (forall i | 0 <= i < |hits| :: IsCited(Deduped(CitationsOf(hits)), hits[i])) <==> !Blurred(hits)
  {
    var out := Deduped(CitationsOf(hits));
    CitationsAreHits(hits);
    hide Deduped, CitationsOf;
    if !Blurred(hits) {
      forall i | 0 <= i < |hits|
        ensures IsCited(out, hits[i])
      {
        var k := KeyIsListed(hits, i);
        var h :| 0 <= h < |hits| && Cites(out[k], hits[h]);
        assert Cites(out[k], hits[i]);
      }
    } else {
      var i, j :| && 0 <= i < |hits| && 0 <= j < |hits|
                  && hits[i].uri + "|" + hits[i].title == hits[j].uri + "|" + hits[j].title
                  && !(hits[i].uri == hits[j].uri && hits[i].title == hits[j].title);
      assert !(IsCited(out, hits[i]) && IsCited(out, hits[j]));
    }
  }

  // ----- The whole answer -----

  /** What is answered to a question when the search gives `hits`. */
  ghost predicate Answers(s: Setup, b: Backend, question: string, lang: string, hits: seq<Hit>, out: Output) {
    && out.language == lang
    && if hits == [] then
         out.answer == s.noSource(lang) && out.citations == [] && out.confidence == 0.0 && out.usedDocuments == []
       else
         && b.explain(question, hits, lang) == Some(out.answer)
         && IsRoundedMean(out.confidence, hits)
         && AreUsed(out.usedDocuments, hits)
         && AreCited(out.citations, hits)
         && ((forall i | 0 <= i < |hits| :: IsCited(out.citations, hits[i])) <==> !Blurred(hits))
  }

  /** The answer of a service without a cache: an error if the question is blank, cannot be embedded or searched for, or
      its hits not be explained; otherwise what its hits give. */
  lemma UncachedAnswers(s: Setup, b: Backend, question: string, lang: string)
    ensures var r, v := Uncached(s, b, question, lang), b.embed(TrimSpace(question));
            if TrimSpace(question) == "" || v.None? || v.value == [] || b.search(v.value, s.topK).None? then r.None?
            else
              var hits := b.search(v.value, s.topK).value;
              && (r.None? <==> hits != [] && b.explain(question, hits, lang).None?)
              && (r.Some? ==> Answers(s, b, question, lang, hits, r.value))
  {
    var v := b.embed(TrimSpace(question));
    if TrimSpace(question) != "" && v.Some? && v.value != [] && b.search(v.value, s.topK).Some? {
      var hits := b.search(v.value, s.topK).value;
      if hits != [] {
        ConfidenceIsRoundedMean(hits);
        UsedDocumentsAreUsed(hits);
        CitationsAreHits(hits);
        EveryHitIsCitedIff(hits);
      }
    }
    hide TrimSpace, Confidence, UsedDocuments, Deduped, CitationsOf, IsRoundedMean, AreUsed, AreCited, IsCited, Blurred;
  }
}
