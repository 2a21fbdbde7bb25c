/** Corpus intake of the 16x RAPTOR tree builder: PubMed detail batches, per-level collection
    with de-duplication and the Level-0 cap, document creation with the Level-0
    sub-sample, the level histogram, and the node records written to the tree file.
    PubMed search and efetch are inputs: functions from a query to PMIDs and from a
    batch of PMIDs to the parsed articles (`None` when the request fails). */
module CorpusBuilder {
  import opened Strings
  import opened Ranking
  import opened Tally
  import opened TregVocab
  import opened RaptorNodes

  // ---------------------------------------------------------------------------
  // fetch_article_details
  // ---------------------------------------------------------------------------

  /** A `PubmedArticle` element: the texts of its PMID and ArticleTitle elements
      (`None` when absent) and of each of its AbstractText elements. */
  datatype RawArticle = RawArticle(pmid: Option<string>, title: Option<string>, abstractTexts: seq<Option<string>>)

  /** An article record: `pmid`, `title` and `abstract` (here `summaryText`). */
  datatype Article = Article(pmid: Option<string>, title: string, summaryText: string)

  const BatchSize: nat := 200

  /** The abstract texts that are present and non-empty, in order. */
  function PresentTexts(texts: seq<Option<string>>): (r: seq<string>)
    ensures forall t | t in r :: t != ""
  {
    if texts == [] then []
    else (if texts[0].Some? && texts[0].value != "" then [texts[0].value] else []) + PresentTexts(texts[1..])
  }

  /** Joining non-empty parts gives the empty string only for no parts. */
  lemma {:induction false} JoinEmpty(parts: seq<string>, sep: string)
    requires forall p | p in parts :: p != ""
    ensures Join(parts, sep) == "" <==> parts == []
  {
    if |parts| > 1 {
      assert parts[0] in parts;
    } else if |parts| == 1 {
      assert parts[0] in parts;
    }
  }

  /** The record built from an element: the title defaults to "", the abstract joins
      the present texts with single spaces. */
  function ArticleOf(raw: RawArticle): Article
  {
    Article(raw.pmid, OrElse(raw.title, ""), Join(PresentTexts(raw.abstractTexts), " "))
  }

  /** The records of the elements of one response that have an abstract. */
  function Parse(raws: seq<RawArticle>): (r: seq<Article>)
    ensures forall a | a in r :: a.summaryText != ""
  {
    if raws == [] then []
    else
      var last := ArticleOf(raws[|raws| - 1]);
      Parse(raws[..|raws| - 1]) + (if last.summaryText != "" then [last] else [])
  }

  /** An article is kept exactly when one of its abstract texts is present and non-empty. */
  lemma KeepsAbstract(raw: RawArticle)
    ensures ArticleOf(raw).summaryText != "" <==> PresentTexts(raw.abstractTexts) != []
  {
    JoinEmpty(PresentTexts(raw.abstractTexts), " ");
  }

  /** `[pmids[i:i + 200] for i in range(0, len(pmids), 200)]`. */
  function Batches(pmids: seq<string>): seq<seq<string>>
    decreases |pmids|
  {
    if pmids == [] then []
    else
      var n := if |pmids| < BatchSize then |pmids| else BatchSize;
      [pmids[..n]] + Batches(pmids[n..])
  }

  function Min(a: int, b: int): int { if a < b then a else b }

  /** Batch `k` is the slice `pmids[200k : 200k + 200]`; there are `ceil(n / 200)` of
      them, so together they cover the list in order, each holding 1 to 200 ids. */
  lemma {:induction false} BatchesFacts(pmids: seq<string>)
    ensures |Batches(pmids)| == (|pmids| + BatchSize - 1) / BatchSize
    ensures forall k | 0 <= k < |Batches(pmids)| ::
              k * BatchSize < |pmids|
              && Batches(pmids)[k] == pmids[k * BatchSize..Min(k * BatchSize + BatchSize, |pmids|)]
    decreases |pmids|
  {
    if pmids != [] {
      var n := if |pmids| < BatchSize then |pmids| else BatchSize;
      var rest := pmids[n..];
      BatchesFacts(rest);
      var b := Batches(pmids);
      assert b == [pmids[..n]] + Batches(rest);
      if n < BatchSize {
        assert rest == [];
      }
      forall k | 0 <= k < |b|
        ensures k * BatchSize < |pmids|
        ensures b[k] == pmids[k * BatchSize..Min(k * BatchSize + BatchSize, |pmids|)]
      {
        if k > 0 {
          var j := k - 1;
          assert b[k] == Batches(rest)[j];
          assert j * BatchSize < |rest|;
          assert k * BatchSize == n + j * BatchSize;
          assert Batches(rest)[j] == rest[j * BatchSize..Min(j * BatchSize + BatchSize, |rest|)];
          assert rest[j * BatchSize..Min(j * BatchSize + BatchSize, |rest|)]
              == pmids[n + j * BatchSize..n + Min(j * BatchSize + BatchSize, |rest|)];
        }
      }
    }
  }

  /** The records fetched for a list of batches. A failed request contributes nothing. */
  function FetchedBatches(batches: seq<seq<string>>, efetch: seq<string> -> Option<seq<RawArticle>>): seq<Article>
  {
    if batches == [] then []
    else
      var response := efetch(batches[0]);
      (if response.Some? then Parse(response.value) else []) + FetchedBatches(batches[1..], efetch)
  }

  /** What `fetch_article_details` returns. */
  function FetchedArticles(pmids: seq<string>, efetch: seq<string> -> Option<seq<RawArticle>>): seq<Article>
  {
    if pmids == [] then [] else FetchedBatches(Batches(pmids), efetch)
  }

  /** Every fetched record has an abstract and is built from an element of the
      successful response to one of the batches. */
  lemma {:induction false} FetchedBatchesFacts(batches: seq<seq<string>>, efetch: seq<string> -> Option<seq<RawArticle>>)
    ensures forall a | a in FetchedBatches(batches, efetch) ::
              a.summaryText != ""
              && exists k | 0 <= k < |batches| :: efetch(batches[k]).Some? && a in Parse(efetch(batches[k]).value)
  {
    if batches != [] {
      FetchedBatchesFacts(batches[1..], efetch);
      forall a | a in FetchedBatches(batches, efetch)
        ensures exists k | 0 <= k < |batches| :: efetch(batches[k]).Some? && a in Parse(efetch(batches[k]).value)
      {
        var response := efetch(batches[0]);
        if !(response.Some? && a in Parse(response.value)) {
          var k :| 0 <= k < |batches[1..]| && efetch(batches[1..][k]).Some?
                   && a in Parse(efetch(batches[1..][k]).value);
          assert batches[1..][k] == batches[k + 1];
        }
      }
    }
  }

  /** Each kept record is `ArticleOf` an element of the response. */
  lemma {:induction false} ParseMembers(raws: seq<RawArticle>)
    ensures forall a | a in Parse(raws) :: exists i | 0 <= i < |raws| :: a == ArticleOf(raws[i])
    ensures forall i | 0 <= i < |raws| && ArticleOf(raws[i]).summaryText != "" :: ArticleOf(raws[i]) in Parse(raws)
  {
    if raws != [] {
      var front := raws[..|raws| - 1];
      ParseMembers(front);
      assert forall i | 0 <= i < |front| :: front[i] == raws[i];
    }
  }

  /** The batches from position `i` on start with the slice at `i`. */
  lemma BatchesStep(pmids: seq<string>, i: nat)
    requires i < |pmids|
    ensures Batches(pmids[i..]) == [pmids[i..Min(i + BatchSize, |pmids|)]] + Batches(pmids[Min(i + BatchSize, |pmids|)..])
  {
    var end := Min(i + BatchSize, |pmids|);
    var rest := pmids[i..];
    assert rest[..end - i] == pmids[i..end];
    assert rest[end - i..] == pmids[end..];
  }

  /** The records one response contributes. */
  function ResponseArticles(response: Option<seq<RawArticle>>): seq<Article>
  {
    if response.Some? then Parse(response.value) else []
  }

  /** The records of the batches from position `i` on start with those of the batch at `i`. */
  lemma FetchStep(pmids: seq<string>, i: nat, efetch: seq<string> -> Option<seq<RawArticle>>)
    requires i < |pmids|
    ensures FetchedBatches(Batches(pmids[i..]), efetch)
         == ResponseArticles(efetch(pmids[i..Min(i + BatchSize, |pmids|)]))
            + FetchedBatches(Batches(pmids[Min(i + BatchSize, |pmids|)..]), efetch)
  {
    BatchesStep(pmids, i);
    var bs := Batches(pmids[i..]);
    assert bs[1..] == Batches(pmids[Min(i + BatchSize, |pmids|)..]);
  }

  /** One batch more keeps the records gathered so far a prefix of all of them. */
  lemma FetchInvariantStep(pmids: seq<string>, i: nat, efetch: seq<string> -> Option<seq<RawArticle>>,
                           before: seq<Article>, after: seq<Article>)
    requires i < |pmids|
    requires before + FetchedBatches(Batches(pmids[i..]), efetch) == FetchedBatches(Batches(pmids), efetch)
    requires after == before + ResponseArticles(efetch(pmids[i..Min(i + BatchSize, |pmids|)]))
    ensures after + FetchedBatches(Batches(pmids[Min(i + BatchSize, |pmids|)..]), efetch) == FetchedBatches(Batches(pmids), efetch)
  {
    FetchStep(pmids, i, efetch);
    SplitPrefix(before, ResponseArticles(efetch(pmids[i..Min(i + BatchSize, |pmids|)])),
                FetchedBatches(Batches(pmids[Min(i + BatchSize, |pmids|)..]), efetch),
                FetchedBatches(Batches(pmids[i..]), efetch), FetchedBatches(Batches(pmids), efetch));
  }

  /** If `before + whole == total` and `whole == here + rest` then `(before + here) + rest == total`. */
  lemma SplitPrefix<T>(before: seq<T>, here: seq<T>, rest: seq<T>, whole: seq<T>, total: seq<T>)
    requires before + whole == total && whole == here + rest
    ensures (before + here) + rest == total
  {
    assert (before + here) + rest == before + (here + rest);
  }

  /** The per-element loop over one efetch response. */
  method ParseResponse(raws: seq<RawArticle>) returns (articles: seq<Article>)
    ensures articles == Parse(raws)
  {
    articles := [];
    var j := 0;
    while j < |raws|
      invariant 0 <= j <= |raws|
      invariant articles == Parse(raws[..j])
    {
      var raw := raws[j];
      var title := OrElse(raw.title, "");
      var abstractText := Join(PresentTexts(raw.abstractTexts), " ");
      assert raws[..j + 1][..j] == raws[..j];
      if abstractText != "" {
        articles := articles + [Article(raw.pmid, title, abstractText)];
      }
      j := j + 1;
    }
    assert raws[..|raws|] == raws;
  }

  /** Batches of at most 200 ids, one efetch request each; records without an abstract
      and failed batches are dropped. */
  method FetchArticleDetails(pmids: seq<string>, efetch: seq<string> -> Option<seq<RawArticle>>)
    returns (articles: seq<Article>)
    ensures articles == FetchedArticles(pmids, efetch)
  {
    if pmids == [] {
      return [];
    }
    assert pmids[0..] == pmids;
    articles := [];
    var i := 0;
    while i < |pmids|
      invariant 0 <= i <= |pmids|
      invariant articles + FetchedBatches(Batches(pmids[i..]), efetch) == FetchedBatches(Batches(pmids), efetch)
      decreases |pmids| - i
    {
      var end := Min(i + BatchSize, |pmids|);
      var batch := pmids[i..end];
      var response := efetch(batch);
      ghost var before := articles;
      if response.Some? {
        var batchArticles := ParseResponse(response.value);
        articles := articles + batchArticles;
      }
      FetchInvariantStep(pmids, i, efetch, before, articles);
      i := end;
    }
  }

  // ---------------------------------------------------------------------------
  // _fetch_level_articles
  // ---------------------------------------------------------------------------

  /** An article as collected for a level: tagged with `expected_level` and `query`. */
  datatype Collected = Collected(article: Article, expectedLevel: int, query: string)

  const Level0Max: nat := 200

  /** No two collected articles share a PMID. */
  predicate DistinctPmids(levelArticles: seq<Collected>)
  {
    forall a, b | 0 <= a < b < |levelArticles| :: levelArticles[a].article.pmid != levelArticles[b].article.pmid
  }

  /** The PMIDs of the collected articles. */
  function PmidsOf(levelArticles: seq<Collected>): set<Option<string>>
  {
    set c | c in levelArticles :: c.article.pmid
  }

  /** What the loop over one query's articles leaves collected, starting from `acc`:
      each article, in order, whose PMID is neither in `seen` nor collected yet, tagged
      with `level` and `query`; Level 0 takes nothing once 200 are collected. */
  function Gather(level: int, query: string, articles: seq<Article>, seen: set<Option<string>>,
                  acc: seq<Collected>): seq<Collected>
    decreases |articles|
  {
    if articles == [] || (level == 0 && |acc| >= Level0Max) then acc
    else if articles[0].pmid !in seen && articles[0].pmid !in PmidsOf(acc)
    then Gather(level, query, articles[1..], seen, acc + [Collected(articles[0], level, query)])
    else Gather(level, query, articles[1..], seen, acc)
  }

  /** The same loop without the Level 0 cap: every first occurrence of an unseen PMID. */
  function Fresh(level: int, query: string, articles: seq<Article>, seen: set<Option<string>>,
                 acc: seq<Collected>): (r: seq<Collected>)
    ensures |acc| <= |r| && r[..|acc|] == acc
    decreases |articles|
  {
    if articles == [] then acc
    else if articles[0].pmid !in seen && articles[0].pmid !in PmidsOf(acc)
    then
      var r := Fresh(level, query, articles[1..], seen, acc + [Collected(articles[0], level, query)]);
      assert r[..|acc|] == r[..|acc| + 1][..|acc|];
      r
    else Fresh(level, query, articles[1..], seen, acc)
  }

  /** Only Level 0 is capped, and there the cap keeps the first 200 of the uncapped
      collection: later articles are dropped, never earlier ones. */
  lemma {:induction false} GatherCapped(level: int, query: string, articles: seq<Article>,
                                        seen: set<Option<string>>, acc: seq<Collected>)
    requires level == 0 ==> |acc| <= Level0Max
    ensures level != 0 ==> Gather(level, query, articles, seen, acc) == Fresh(level, query, articles, seen, acc)
    ensures level == 0 ==>
              var all := Fresh(level, query, articles, seen, acc);
              Gather(level, query, articles, seen, acc) == all[..Min(|all|, Level0Max)]
    decreases |articles|
  {
    var all := Fresh(level, query, articles, seen, acc);
    if articles == [] {
    } else if level == 0 && |acc| >= Level0Max {
      assert all[..Min(|all|, Level0Max)] == all[..|acc|];
    } else if articles[0].pmid !in seen && articles[0].pmid !in PmidsOf(acc) {
      GatherCapped(level, query, articles[1..], seen, acc + [Collected(articles[0], level, query)]);
    } else {
      GatherCapped(level, query, articles[1..], seen, acc);
    }
  }

  /** The loop over the articles of one query: each article whose PMID is neither in
      `seen` nor collected yet is appended, tagged with `level` and `query`; Level 0 stops
      at 200. What was collected before stays, the new entries are unseen articles of this
      query, PMIDs stay distinct and `localSeen` their set; unless Level 0 reached its cap,
      every unseen PMID of `articles` ends up in `localSeen`. The result is `Gather`'s. */
  method CollectQuery(level: int, query: string, articles: seq<Article>, seen: set<Option<string>>,
                      collected: seq<Collected>, seenHere: set<Option<string>>)
    returns (levelArticles: seq<Collected>, localSeen: set<Option<string>>)
    requires DistinctPmids(collected) && seenHere == PmidsOf(collected)
    requires level == 0 ==> |collected| <= Level0Max
    ensures levelArticles == Gather(level, query, articles, seen, collected)
    ensures |collected| <= |levelArticles| && levelArticles[..|collected|] == collected
    ensures forall k | |collected| <= k < |levelArticles| ::
              levelArticles[k].article in articles && levelArticles[k].article.pmid !in seen
              && levelArticles[k].expectedLevel == level && levelArticles[k].query == query
    ensures DistinctPmids(levelArticles) && localSeen == PmidsOf(levelArticles)
    ensures level == 0 ==> |levelArticles| <= Level0Max
    ensures level != 0 || |levelArticles| < Level0Max ==>
              forall k | 0 <= k < |articles| && articles[k].pmid !in seen :: articles[k].pmid in localSeen
  {
    levelArticles, localSeen := collected, seenHere;
    var j := 0;
    while j < |articles|
      invariant 0 <= j <= |articles|
      invariant Gather(level, query, articles[j..], seen, levelArticles) == Gather(level, query, articles, seen, collected)
      invariant |collected| <= |levelArticles| && levelArticles[..|collected|] == collected
      invariant forall k | |collected| <= k < |levelArticles| ::
                  levelArticles[k].article in articles && levelArticles[k].article.pmid !in seen
                  && levelArticles[k].expectedLevel == level && levelArticles[k].query == query
      invariant DistinctPmids(levelArticles) && localSeen == PmidsOf(levelArticles)
      invariant level == 0 ==> |levelArticles| <= Level0Max
      invariant level != 0 || |levelArticles| < Level0Max ==>
                  forall k | 0 <= k < j && articles[k].pmid !in seen :: articles[k].pmid in localSeen
    {
      if level == 0 && |levelArticles| >= Level0Max {
        break;
      }
      var article := articles[j];
      assert articles[j..][1..] == articles[j + 1..];
      if article.pmid !in seen && article.pmid !in localSeen {
        ghost var before := levelArticles;
        localSeen := localSeen + {article.pmid};
        levelArticles := levelArticles + [Collected(article, level, query)];
        assert forall k | 0 <= k < |before| :: levelArticles[k] == before[k];
        assert forall k | 0 <= k < |before| :: before[k] in before;
      }
      j := j + 1;
    }
  }

  /** What the loop over the queries leaves collected, starting from `acc`: each query's
      fetched articles go through `Gather` in turn; Level 0 runs no query once 200 are
      collected. An article is thus tagged with the first query that returned it. */
  function CollectAll(level: int, queries: seq<string>, seen: set<Option<string>>,
                      search: string -> seq<string>, efetch: seq<string> -> Option<seq<RawArticle>>,
                      acc: seq<Collected>): seq<Collected>
    decreases |queries|
  {
    if queries == [] || (level == 0 && |acc| >= Level0Max) then acc
    else CollectAll(level, queries[1..], seen, search, efetch,
                    Gather(level, queries[0], FetchedArticles(search(queries[0]), efetch), seen, acc))
  }

  /** Runs every query of a level, in order, keeping articles whose PMID was neither
      seen before the call nor already collected; Level 0 stops at 200 articles. The
      result has distinct PMIDs, none seen before, each tagged with the level and its
      own query; `local_seen` is exactly their PMIDs; and unless Level 0 reached its
      cap, every unseen PMID of every query's articles was collected. The result is
      `CollectAll`'s, in its order. */
  method FetchLevelArticles(level: int, queries: seq<string>, seen: set<Option<string>>,
                            search: string -> seq<string>, efetch: seq<string> -> Option<seq<RawArticle>>)
    returns (lvl: int, levelArticles: seq<Collected>, localSeen: set<Option<string>>)
    ensures lvl == level
    ensures levelArticles == CollectAll(level, queries, seen, search, efetch, [])
    ensures DistinctPmids(levelArticles)
    ensures forall c | c in levelArticles ::
              c.article.pmid !in seen && c.expectedLevel == level && c.query in queries
              && c.article in FetchedArticles(search(c.query), efetch)
    ensures localSeen == PmidsOf(levelArticles)
    ensures level == 0 ==> |levelArticles| <= Level0Max
    ensures level != 0 || |levelArticles| < Level0Max ==>
              forall q, a | q in queries && a in FetchedArticles(search(q), efetch) && a.pmid !in seen :: a.pmid in localSeen
  {
    lvl := level;
    levelArticles := [];
    localSeen := {};
    var qi := 0;
    while qi < |queries|
      invariant 0 <= qi <= |queries|
      invariant CollectAll(level, queries[qi..], seen, search, efetch, levelArticles)
                == CollectAll(level, queries, seen, search, efetch, [])
      invariant DistinctPmids(levelArticles) && localSeen == PmidsOf(levelArticles)
      invariant forall c | c in levelArticles ::
                  c.article.pmid !in seen && c.expectedLevel == level && c.query in queries
                  && c.article in FetchedArticles(search(c.query), efetch)
      invariant level == 0 ==> |levelArticles| <= Level0Max
      invariant level != 0 || |levelArticles| < Level0Max ==>
                  forall q, a | q in queries[..qi] && a in FetchedArticles(search(q), efetch) && a.pmid !in seen :: a.pmid in localSeen
    {
      if level == 0 && |levelArticles| >= Level0Max {
        break;
      }
      var query := queries[qi];
      assert queries[qi..][1..] == queries[qi + 1..];
      var pmids := search(query);
      var articles: seq<Article> := [];
      if pmids != [] {
        articles := FetchArticleDetails(pmids, efetch);
      }
      assert articles == FetchedArticles(pmids, efetch);
      ghost var before, seenBefore := levelArticles, localSeen;
      levelArticles, localSeen := CollectQuery(level, query, articles, seen, levelArticles, localSeen);
      CollectQueryStep(level, queries, qi, seen, search, efetch, before, seenBefore, levelArticles, localSeen);
      qi := qi + 1;
    }
  }

  /** The outer loop's invariant survives one query. */
  lemma CollectQueryStep(level: int, queries: seq<string>, qi: nat, seen: set<Option<string>>,
                         search: string -> seq<string>, efetch: seq<string> -> Option<seq<RawArticle>>,
                         before: seq<Collected>, seenBefore: set<Option<string>>,
                         after: seq<Collected>, seenAfter: set<Option<string>>)
    requires qi < |queries|
    requires seenBefore == PmidsOf(before) && seenAfter == PmidsOf(after)
    requires forall c | c in before ::
               c.article.pmid !in seen && c.expectedLevel == level && c.query in queries
               && c.article in FetchedArticles(search(c.query), efetch)
    requires level != 0 || |before| < Level0Max ==>
               forall q, a | q in queries[..qi] && a in FetchedArticles(search(q), efetch) && a.pmid !in seen :: a.pmid in seenBefore
    requires |before| <= |after| && after[..|before|] == before
    requires forall k | |before| <= k < |after| ::
               after[k].article in FetchedArticles(search(queries[qi]), efetch) && after[k].article.pmid !in seen
               && after[k].expectedLevel == level && after[k].query == queries[qi]
    requires level != 0 || |after| < Level0Max ==>
               forall k | 0 <= k < |FetchedArticles(search(queries[qi]), efetch)| && FetchedArticles(search(queries[qi]), efetch)[k].pmid !in seen ::
                 FetchedArticles(search(queries[qi]), efetch)[k].pmid in seenAfter
    ensures forall c | c in after ::
              c.article.pmid !in seen && c.expectedLevel == level && c.query in queries
              && c.article in FetchedArticles(search(c.query), efetch)
    ensures level != 0 || |after| < Level0Max ==>
              forall q, a | q in queries[..qi + 1] && a in FetchedArticles(search(q), efetch) && a.pmid !in seen :: a.pmid in seenAfter
  {
    assert queries[..qi + 1] == queries[..qi] + [queries[qi]];
    forall c | c in after
      ensures c.article.pmid !in seen && c.expectedLevel == level && c.query in queries
              && c.article in FetchedArticles(search(c.query), efetch)
    {
      var k :| 0 <= k < |after| && after[k] == c;
      if k < |before| {
        assert before[k] == c;
      }
    }
    assert seenBefore <= seenAfter by {
      forall p | p in seenBefore
        ensures p in seenAfter
      {
        var c :| c in before && c.article.pmid == p;
        var k :| 0 <= k < |before| && before[k] == c;
        assert after[k] == c;
      }
    }
  }

  // ---------------------------------------------------------------------------
  // create_treg_documents_16x
  // ---------------------------------------------------------------------------

  /** A document: id, PMID, title, text, the level the classifier gave it, its label. */
  datatype Document = Document(id: string, pmid: Option<string>, title: string, text: string,
                               determinedLevel: int, tregLabel: string)

  const MinArticles: nat := 100
  const Level0Limit: nat := 500

  /** The document made from the `idx`-th article. */
  function DocumentFor(idx: nat, a: Article): Document
  {
    var text := a.title + ". " + a.summaryText;
    var level := DetermineTregLevel(text);
    Document("doc_" + NatToString(idx), a.pmid, a.title, text, level, GenerateLabel(text, level, idx, 1))
  }

  /** One document per article, in article order. */
  function Documents(articles: seq<Article>): (docs: seq<Document>)
    ensures |docs| == |articles|
    ensures forall i | 0 <= i < |articles| :: docs[i] == DocumentFor(i, articles[i])
  {
    seq(|articles|, i requires 0 <= i < |articles| => DocumentFor(i, articles[i]))
  }

  /** `[doc for doc in documents if doc['determined_level'] == 0]`. */
  function Level0Docs(docs: seq<Document>): (r: seq<Document>)
    ensures forall d | d in r :: d in docs && d.determinedLevel == 0
  {
    if docs == [] then [] else (if docs[0].determinedLevel == 0 then [docs[0]] else []) + Level0Docs(docs[1..])
  }

  /** `[doc for doc in documents if doc['determined_level'] != 0]`. */
  function OtherDocs(docs: seq<Document>): (r: seq<Document>)
    ensures forall d | d in r :: d in docs && d.determinedLevel != 0
  {
    if docs == [] then [] else (if docs[0].determinedLevel != 0 then [docs[0]] else []) + OtherDocs(docs[1..])
  }

  /** The two filters split the documents. */
  lemma {:induction false} SplitByLevel(docs: seq<Document>)
    ensures |Level0Docs(docs)| + |OtherDocs(docs)| == |docs|
    ensures forall d | d in docs :: d in Level0Docs(docs) || d in OtherDocs(docs)
  {
    if docs != [] {
      SplitByLevel(docs[1..]);
      assert docs == [docs[0]] + docs[1..];
    }
  }

  /** A filter keeps a list's order, so it keeps a list without repeats free of them. */
  lemma {:induction false} FiltersDistinct(docs: seq<Document>)
    requires Distinct(docs)
    ensures Distinct(Level0Docs(docs)) && Distinct(OtherDocs(docs))
  {
    if docs != [] {
      var t := docs[1..];
      assert Distinct(t) by {
        forall i, j | 0 <= i < j < |t|
          ensures t[i] != t[j]
        {
          assert t[i] == docs[i + 1] && t[j] == docs[j + 1];
        }
      }
      FiltersDistinct(t);
      assert docs[0] !in t;
    }
  }

  /** `random.sample(level_0_docs, 500)` as any choice: `k` distinct documents of the pool. */
  predicate IsSample(sample: seq<Document>, pool: seq<Document>, k: nat)
  {
    |sample| == k && Distinct(sample) && forall d | d in sample :: d in pool
  }

  /** Documents get the ids `doc_0`, `doc_1`, … in article order, so their ids are
      distinct; every level lies in 0..7 and every label ends in "(n=1)". */
  lemma DocumentsFacts(articles: seq<Article>)
    ensures forall i | 0 <= i < |articles| :: Documents(articles)[i].id == "doc_" + NatToString(i)
    ensures forall i, j | 0 <= i < j < |articles| :: Documents(articles)[i].id != Documents(articles)[j].id
    ensures forall d | d in Documents(articles) :: 0 <= d.determinedLevel <= 7 && EndsWith(d.tregLabel, SizeTag(1))
    ensures Distinct(Documents(articles))
  {
    var docs := Documents(articles);
    forall i, j | 0 <= i < j < |articles|
      ensures docs[i].id != docs[j].id
    {
      if docs[i].id == docs[j].id {
        var a, b := NatToString(i), NatToString(j);
        assert a == docs[i].id[4..] && b == docs[j].id[4..];
        NatToStringInjective(i, j);
      }
    }
    forall d | d in docs
      ensures 0 <= d.determinedLevel <= 7 && EndsWith(d.tregLabel, SizeTag(1))
    {
      var i :| 0 <= i < |docs| && docs[i] == d;
      LabelShape(d.text, d.determinedLevel, i, 1);
    }
  }

  /** The loop that turns each article into its document. */
  method MakeDocuments(articles: seq<Article>) returns (documents: seq<Document>)
    ensures documents == Documents(articles)
  {
    documents := [];
    var idx := 0;
    while idx < |articles|
      invariant 0 <= idx <= |articles|
      invariant documents == Documents(articles)[..idx]
    {
      var article := articles[idx];
      var text := article.title + ". " + article.summaryText;
      var determinedLevel := DetermineTregLevel(text);
      var tag := GenerateLabel(text, determinedLevel, idx, 1);
      SliceSnoc(Documents(articles), idx);
      documents := documents + [Document("doc_" + NatToString(idx), article.pmid, article.title, text, determinedLevel, tag)];
      idx := idx + 1;
    }
  }

  /** Fewer than 100 articles give no documents. Otherwise every article becomes a
      document; when more than 500 of them have level 0, the result is 500 distinct
      level-0 documents followed by all the others in their original order. */
  method CreateTregDocuments(articles: seq<Article>) returns (documents: seq<Document>)
    ensures |articles| < MinArticles ==> documents == []
    ensures |articles| >= MinArticles && |Level0Docs(Documents(articles))| <= Level0Limit ==>
              documents == Documents(articles)
    ensures |articles| >= MinArticles && |Level0Docs(Documents(articles))| > Level0Limit ==>
              |documents| >= Level0Limit
              && IsSample(documents[..Level0Limit], Level0Docs(Documents(articles)), Level0Limit)
              && documents[Level0Limit..] == OtherDocs(Documents(articles))
  {
    if |articles| < MinArticles {
      return [];
    }
    documents := MakeDocuments(articles);
    var level0 := Level0Docs(documents);
    var others := OtherDocs(documents);
    if |level0| > Level0Limit {
      DocumentsFacts(articles);
      FiltersDistinct(documents);
      assert IsSample(level0[..Level0Limit], level0, Level0Limit) by {
        forall i, j | 0 <= i < j < Level0Limit
          ensures level0[..Level0Limit][i] != level0[..Level0Limit][j]
        {
        }
      }
      var sample :| IsSample(sample, level0, Level0Limit);
      assert IsSample(sample, level0, Level0Limit);
      documents := sample + others;
      assert documents[..Level0Limit] == sample;
    }
  }

  /** After the sub-sample the documents are still free of repeats and exactly 500 of
      them have level 0. */
  lemma SampledDocuments(articles: seq<Article>, sample: seq<Document>)
    requires IsSample(sample, Level0Docs(Documents(articles)), Level0Limit)
    ensures Distinct(sample + OtherDocs(Documents(articles)))
    ensures |Level0Docs(sample + OtherDocs(Documents(articles)))| == Level0Limit
  {
    var docs := Documents(articles);
    var others := OtherDocs(docs);
    DocumentsFacts(articles);
    FiltersDistinct(docs);
    var all := sample + others;
    forall i, j | 0 <= i < j < |all|
      ensures all[i] != all[j]
    {
      if j < |sample| {
        assert all[i] == sample[i] && all[j] == sample[j];
      } else if i >= |sample| {
        assert all[i] == others[i - |sample|] && all[j] == others[j - |sample|];
      } else {
        assert all[i] in sample && all[j] in others;
      }
    }
    Level0OfAppend(sample, others);
    AllLevel0(sample);
    NoLevel0(others);
  }

  lemma {:induction false} Level0OfAppend(a: seq<Document>, b: seq<Document>)
    ensures Level0Docs(a + b) == Level0Docs(a) + Level0Docs(b)
  {
    if a == [] {
      assert a + b == b;
    } else {
      assert (a + b)[1..] == a[1..] + b;
      Level0OfAppend(a[1..], b);
    }
  }

  lemma {:induction false} AllLevel0(s: seq<Document>)
    requires forall d | d in s :: d.determinedLevel == 0
    ensures Level0Docs(s) == s
  {
    if s != [] {
      assert forall d | d in s[1..] :: d in s;
      AllLevel0(s[1..]);
    }
  }

  lemma {:induction false} NoLevel0(s: seq<Document>)
    requires forall d | d in s :: d.determinedLevel != 0
    ensures Level0Docs(s) == []
  {
    if s != [] {
      assert forall d | d in s[1..] :: d in s;
      NoLevel0(s[1..]);
    }
  }

  // ---------------------------------------------------------------------------
  // analyze_document_distribution
  // ---------------------------------------------------------------------------

  function LevelsOf(docs: seq<Document>): (r: seq<int>)
    ensures |r| == |docs|
    ensures forall i | 0 <= i < |docs| :: r[i] == docs[i].determinedLevel
  {
    seq(|docs|, i requires 0 <= i < |docs| => docs[i].determinedLevel)
  }

  /** One counter per level 0..7, each counting the documents of that level; the
      counters sum to the number of documents. */
  method AnalyzeDocumentDistribution(documents: seq<Document>) returns (levelCounts: map<int, nat>)
    requires forall d | d in documents :: 0 <= d.determinedLevel < 8
    ensures forall k :: k in levelCounts <==> 0 <= k < 8
    ensures forall k | 0 <= k < 8 :: levelCounts[k] == Count(LevelsOf(documents), k)
    ensures MapSum(levelCounts) == |documents|
  {
    levelCounts := Zeros(8);
    ghost var levels := LevelsOf(documents);
    var i := 0;
    while i < |documents|
      invariant 0 <= i <= |documents|
      invariant levelCounts == Tally.Tally(Zeros(8), levels[..i])
    {
      var level := documents[i].determinedLevel;
      assert levels[..i + 1][..i] == levels[..i];
      levelCounts := Bump(levelCounts, level);
      i := i + 1;
    }
    assert levels[..|documents|] == levels;
    DistributionFacts(documents);
  }

  /** The histogram of the document levels, from the eight zero counters. */
  lemma DistributionFacts(documents: seq<Document>)
    requires forall d | d in documents :: 0 <= d.determinedLevel < 8
    ensures forall k :: k in Tally.Tally(Zeros(8), LevelsOf(documents)) <==> 0 <= k < 8
    ensures forall k | 0 <= k < 8 :: Tally.Tally(Zeros(8), LevelsOf(documents))[k] == Count(LevelsOf(documents), k)
    ensures MapSum(Tally.Tally(Zeros(8), LevelsOf(documents))) == |documents|
  {
    var levels := LevelsOf(documents);
    forall i | 0 <= i < |levels|
      ensures 0 <= levels[i] < 8
    {
      assert documents[i] in documents;
    }
    ZerosHistogram(8, levels);
  }

  // ---------------------------------------------------------------------------
  // Tree-node serialisation in build_16x_raptor_tree
  // ---------------------------------------------------------------------------

  /** A node of the built RAPTOR tree, as the external builder holds it. */
  datatype RaptorNode = RaptorNode(nodeId: string, parentId: Option<string>, children: seq<string>, level: int,
                                   content: string, summary: Option<string>, isLeaf: bool,
                                   clusterId: Option<int>, clusterSize: int, sourceDocuments: seq<string>)

  /** The builder's `nodes` dict. */
  type RaptorTree = t: seq<(string, RaptorNode)> | Keyed(t) witness []

  /** A Python string is falsy when it is `None` or empty. */
  predicate Truthy(s: Option<string>) { s.Some? && s.value != "" }

  /** The JSON record written for one node. */
  function SerializeNode(n: RaptorNode): StoredNode
  {
    StoredNode(
      Some(n.nodeId),
      if Truthy(n.parentId) then n.parentId else None,
      Some(n.children),
      Some(n.level),
      Some(Prefix(n.content, 500)),
      Some(if Truthy(n.summary) then Prefix(n.summary.value, 500) else ""),
      Some(n.isLeaf),
      n.clusterId,
      Some(n.clusterSize),
      Some(Prefix(n.sourceDocuments, 30)))
  }

  /** The record keeps at most 500 characters of content and of summary (which is ""
      when falsy), at most 30 source documents, and a parent only when it is truthy;
      read back with the readers' defaults it gives the node's level, leaf flag and
      truncated text. */
  lemma SerializedFacts(n: RaptorNode)
    ensures var s := SerializeNode(n);
            && s.content.Some? && |s.content.value| <= 500 && StartsWith(n.content, s.content.value)
            && s.summary.Some? && |s.summary.value| <= 500
            && (Truthy(n.summary) ==> StartsWith(n.summary.value, s.summary.value))
            && (!Truthy(n.summary) ==> s.summary.value == "")
            && s.sourceDocuments.Some? && |s.sourceDocuments.value| <= 30
            && (s.parentId.Some? <==> Truthy(n.parentId))
            && (s.clusterId.Some? <==> n.clusterId.Some?)
            && OrElse(s.level, 0) == n.level && OrElse(s.isLeaf, false) == n.isLeaf
            && NodeText(s) == s.summary.value + " " + s.content.value
  {
  }

  /** The `tree_nodes` dict: one record per node, under the node's key, in tree order. */
  method SerializeTree(tree: RaptorTree) returns (nodes: NodeMap)
    ensures Ids(nodes) == Ids(tree)
    ensures forall i | 0 <= i < |tree| :: nodes[i].1 == SerializeNode(tree[i].1)
  {
    nodes := [];
    var i := 0;
    while i < |tree|
      invariant 0 <= i <= |tree|
      invariant |nodes| == i
      invariant forall k | 0 <= k < i :: nodes[k] == (tree[k].0, SerializeNode(tree[k].1))
    {
      var (nodeId, node) := tree[i];
      var next := nodes + [(nodeId, SerializeNode(node))];
      assert Keyed(next) by {
        forall a, b | 0 <= a < b < |next|
          ensures next[a].0 != next[b].0
        {
          assert next[a].0 == tree[a].0 && next[b].0 == tree[b].0;
        }
      }
      nodes := next;
      i := i + 1;
    }
  }

  /** `total_nodes`, `max_depth`, `leaf_count` of the built tree. */
  datatype BuildStats = BuildStats(totalNodes: nat, maxDepth: int, leafCount: nat)

  /** The positions of the leaf nodes. */
  function LeafIndices(tree: seq<(string, RaptorNode)>): set<int>
  {
    set i | 0 <= i < |tree| && tree[i].1.isLeaf
  }

  /** `sum(1 for node in tree.values() if node.is_leaf)`: the number of leaf nodes. */
  function CountLeaves(tree: seq<(string, RaptorNode)>): (r: nat)
    ensures r == |LeafIndices(tree)|
    ensures r <= |tree|
  {
    if tree == [] then 0
    else
      var n := |tree| - 1;
      var front := tree[..n];
      assert LeafIndices(tree) == LeafIndices(front) + (if tree[n].1.isLeaf then {n} else {});
      CountLeaves(front) + (if tree[n].1.isLeaf then 1 else 0)
  }

  function NodeLevels(tree: seq<(string, RaptorNode)>): (r: seq<int>)
    ensures |r| == |tree|
    ensures forall i | 0 <= i < |tree| :: r[i] == tree[i].1.level
  {
    seq(|tree|, i requires 0 <= i < |tree| => tree[i].1.level)
  }

  /** The depth is the largest node level (0 for an empty tree), reached by some node;
      the leaf count is the number of nodes marked as leaves. */
  function TreeStats(tree: RaptorTree): (r: BuildStats)
    ensures r.totalNodes == |tree| && r.leafCount <= r.totalNodes
    ensures r.leafCount == |set i | 0 <= i < |tree| && tree[i].1.isLeaf|
    ensures tree == [] ==> r.maxDepth == 0
    ensures forall i | 0 <= i < |tree| :: tree[i].1.level <= r.maxDepth
    ensures tree != [] ==> exists i | 0 <= i < |tree| :: tree[i].1.level == r.maxDepth
  {
    var levels := NodeLevels(tree);
    var depth := MaxOr(levels, 0);
    assert forall i | 0 <= i < |tree| :: levels[i] in levels;
    BuildStats(|tree|, depth, CountLeaves(tree))
  }
}
