/** Retrieval over the saved RAPTOR tree: the keyword baseline, ranking of precomputed
    query similarities over an embedding index, and the weighted fusion of the two. */
module RaptorSearch {
  import opened Strings
  import opened Ranking
  import opened RaptorNodes

  /** A keyword or semantic result: node id, score, level (default -1), leaf flag
      (default false) and the first 200 characters of the node text. */
  datatype Hit = Hit(nodeId: string, score: real, level: int, isLeaf: bool, text: string)

  function ScoreOf(h: Hit): real { h.score }

  // ---------------------------------------------------------------------------
  // Keyword search
  // ---------------------------------------------------------------------------

  /** `set(query.lower().split())`. */
  function QueryWords(query: string): set<string>
  {
    set w | w in Split(Lower(query))
  }

  /** The query words that occur in the lower-cased text. */
  function MatchedWords(query: string, text: string): (r: set<string>)
    ensures r <= QueryWords(query)
  {
    set w | w in QueryWords(query) && Contains(Lower(text), w)
  }

  /** `sum(1 for word in query_words if word in text_lower)`. */
  function KeywordScore(query: string, text: string): (r: nat)
    ensures r <= |QueryWords(query)|
  {
    var m := MatchedWords(query, text);
    SubsetSize(m, QueryWords(query));
    |m|
  }

  /** The score is positive exactly when some query word occurs in the text. */
  lemma KeywordScorePositive(query: string, text: string)
    ensures KeywordScore(query, text) > 0 <==> exists w | w in QueryWords(query) :: Contains(Lower(text), w)
  {
    var m := MatchedWords(query, text);
    NonEmptySet(m);
    if exists w | w in QueryWords(query) :: Contains(Lower(text), w) {
      var w :| w in QueryWords(query) && Contains(Lower(text), w);
      assert w in m;
    }
  }

  lemma NonEmptySet<T>(a: set<T>)
    ensures |a| > 0 <==> exists x :: x in a
  {
    if forall x :: x !in a {
      assert a == {};
    }
  }

  lemma {:induction false} SubsetSize<T>(a: set<T>, b: set<T>)
    requires a <= b
    ensures |a| <= |b|
    decreases |b|
  {
    if a != {} {
      var x :| x in a;
      SubsetSize(a - {x}, b - {x});
    }
  }

  /** A node the baseline returns: one whose text shares a word with the query. */
  predicate Matches(query: string, entry: (string, StoredNode))
  {
    KeywordScore(query, NodeText(entry.1)) > 0
  }

  /** The result record for one node. */
  function KeywordHit(query: string, entry: (string, StoredNode)): Hit
  {
    var text := NodeText(entry.1);
    Hit(entry.0, KeywordScore(query, text) as real, OrElse(entry.1.level, -1),
        OrElse(entry.1.isLeaf, false), Prefix(text, 200))
  }

  /** The results in node-map order, before sorting. */
  function KeywordHits(query: string, nodes: seq<(string, StoredNode)>): seq<Hit>
  {
    if nodes == [] then []
    else
      var last := nodes[|nodes| - 1];
      KeywordHits(query, nodes[..|nodes| - 1]) + (if Matches(query, last) then [KeywordHit(query, last)] else [])
  }

  /** Every hit is the record of a matching node. */
  lemma {:induction false} KeywordHitsSound(query: string, nodes: seq<(string, StoredNode)>)
    ensures forall h | h in KeywordHits(query, nodes) ::
              exists i | 0 <= i < |nodes| :: Matches(query, nodes[i]) && h == KeywordHit(query, nodes[i])
  {
    if nodes != [] {
      var front, last := nodes[..|nodes| - 1], nodes[|nodes| - 1];
      KeywordHitsSound(query, front);
      forall h | h in KeywordHits(query, nodes)
        ensures exists i | 0 <= i < |nodes| :: Matches(query, nodes[i]) && h == KeywordHit(query, nodes[i])
      {
        if h in KeywordHits(query, front) {
          var i :| 0 <= i < |front| && Matches(query, front[i]) && h == KeywordHit(query, front[i]);
          assert front[i] == nodes[i];
        } else {
          assert nodes[|nodes| - 1] == last;
        }
      }
    }
  }

  /** Every matching node has its record among the hits. */
  lemma {:induction false} KeywordHitsComplete(query: string, nodes: seq<(string, StoredNode)>)
    ensures forall i | 0 <= i < |nodes| && Matches(query, nodes[i]) :: KeywordHit(query, nodes[i]) in KeywordHits(query, nodes)
  {
    if nodes != [] {
      var front := nodes[..|nodes| - 1];
      KeywordHitsComplete(query, front);
      forall i | 0 <= i < |nodes| && Matches(query, nodes[i])
        ensures KeywordHit(query, nodes[i]) in KeywordHits(query, nodes)
      {
        if i < |front| {
          assert front[i] == nodes[i];
        }
      }
    }
  }

  /** What `simple_keyword_search` returns: the hits, stably sorted by descending score,
      cut to `top_k`. */
  function KeywordRanking(data: TreeData, query: string, topK: int): seq<Hit>
  {
    Prefix(SortDesc(KeywordHits(query, TreeNodes(data)), ScoreOf), topK)
  }

  method SimpleKeywordSearch(data: TreeData, query: string, topK: int) returns (results: seq<Hit>)
    ensures results == KeywordRanking(data, query, topK)
  {
    var nodes := TreeNodes(data);
    var found: seq<Hit> := [];
    var i := 0;
    while i < |nodes|
      invariant 0 <= i <= |nodes|
      invariant found == KeywordHits(query, nodes[..i])
    {
      var (id, info) := nodes[i];
      var text := OrElse(info.summary, "") + " " + OrElse(info.content, "");
      var score := KeywordScore(query, text);
      if score > 0 {
        found := found + [Hit(id, score as real, OrElse(info.level, -1), OrElse(info.isLeaf, false), Prefix(text, 200))];
      }
      assert nodes[..i + 1][..i] == nodes[..i];
      i := i + 1;
    }
    assert nodes[..|nodes|] == nodes;
    results := Prefix(SortDesc(found, ScoreOf), topK);
  }

  /** The baseline's results are sorted by non-increasing score, number at most `top_k`,
      score between 1 and the number of query words, carry at most 200 characters of
      text, come from matching nodes, and outrank every matching node left out; when
      fewer than `top_k` come back, every matching node is among them. */
  lemma KeywordRankingFacts(data: TreeData, query: string, topK: int)
    ensures SortedDesc(KeywordRanking(data, query, topK), ScoreOf)
    ensures topK >= 0 ==> |KeywordRanking(data, query, topK)| <= topK
    ensures forall h | h in KeywordRanking(data, query, topK) ::
              1.0 <= h.score <= |QueryWords(query)| as real && |h.text| <= 200
              && exists i | 0 <= i < |TreeNodes(data)| :: Matches(query, TreeNodes(data)[i])
                                                          && h == KeywordHit(query, TreeNodes(data)[i])
    ensures forall i | 0 <= i < |TreeNodes(data)| && Matches(query, TreeNodes(data)[i])
                       && KeywordHit(query, TreeNodes(data)[i]) !in KeywordRanking(data, query, topK) ::
              forall h | h in KeywordRanking(data, query, topK) ::
                h.score >= KeywordScore(query, NodeText(TreeNodes(data)[i].1)) as real
    ensures topK > |KeywordRanking(data, query, topK)| ==>
              forall i | 0 <= i < |TreeNodes(data)| && Matches(query, TreeNodes(data)[i]) ::
                KeywordHit(query, TreeNodes(data)[i]) in KeywordRanking(data, query, topK)
  {
    var nodes := TreeNodes(data);
    var hits := KeywordHits(query, nodes);
    var r := KeywordRanking(data, query, topK);
    TopPrefix(hits, ScoreOf, topK);
    KeywordHitsSound(query, nodes);
    KeywordHitsComplete(query, nodes);
    forall h | h in r
      ensures 1.0 <= h.score <= |QueryWords(query)| as real && |h.text| <= 200
      ensures exists i | 0 <= i < |nodes| :: Matches(query, nodes[i]) && h == KeywordHit(query, nodes[i])
    {
      assert h in hits;
    }
    forall i | 0 <= i < |nodes| && Matches(query, nodes[i]) && KeywordHit(query, nodes[i]) !in r
      ensures forall h | h in r :: h.score >= KeywordScore(query, NodeText(nodes[i].1)) as real
    {
      assert KeywordHit(query, nodes[i]) in hits;
    }
  }

  /** Lower-casing leaves whitespace where it is. */
  lemma LowerKeepsBlank(s: string)
    requires IsBlank(s)
    ensures IsBlank(Lower(s))
  {
  }

  /** No matching node, no hits. */
  lemma {:induction false} NoMatchNoHits(query: string, nodes: seq<(string, StoredNode)>)
    requires forall i | 0 <= i < |nodes| :: !Matches(query, nodes[i])
    ensures KeywordHits(query, nodes) == []
  {
    if nodes != [] {
      NoMatchNoHits(query, nodes[..|nodes| - 1]);
    }
  }

  /** An empty or all-whitespace query finds nothing. */
  lemma BlankQueryFindsNothing(data: TreeData, query: string, topK: int)
    requires IsBlank(query)
    ensures KeywordRanking(data, query, topK) == []
  {
    LowerKeepsBlank(query);
    SplitEmptyIffBlank(Lower(query));
    assert QueryWords(query) == {};
    var nodes := TreeNodes(data);
    forall i | 0 <= i < |nodes|
      ensures !Matches(query, nodes[i])
    {
      KeywordScorePositive(query, NodeText(nodes[i].1));
    }
    NoMatchNoHits(query, nodes);
  }

  // ---------------------------------------------------------------------------
  // Embedding index
  // ---------------------------------------------------------------------------

  /** A text embedding; the encoder is an input of the model. */
  type Embedding = seq<real>

  /** What the index keeps per node. */
  datatype NodeInfo = NodeInfo(level: int, isLeaf: bool, text: string)

  /** The content of a previously saved embedding cache file. */
  datatype EmbeddingCache = EmbeddingCache(embeddings: seq<Embedding>, nodeIds: seq<string>, nodeInfo: seq<NodeInfo>)

  /** The nodes the index keeps: those whose text is not blank, in node-map order. */
  function Indexed(nodes: seq<(string, StoredNode)>): (r: seq<(string, StoredNode)>)
    ensures |r| <= |nodes|
  {
    if nodes == [] then []
    else
      var last := nodes[|nodes| - 1];
      Indexed(nodes[..|nodes| - 1]) + (if IsBlank(NodeText(last.1)) then [] else [last])
  }

  /** The index keeps exactly the nodes with non-blank text. */
  lemma {:induction false} IndexedMembers(nodes: seq<(string, StoredNode)>)
    ensures forall e | e in Indexed(nodes) :: e in nodes && !IsBlank(NodeText(e.1))
    ensures forall i | 0 <= i < |nodes| && !IsBlank(NodeText(nodes[i].1)) :: nodes[i] in Indexed(nodes)
  {
    if nodes != [] {
      var front := nodes[..|nodes| - 1];
      IndexedMembers(front);
      assert forall i | 0 <= i < |front| :: front[i] == nodes[i];
    }
  }

  /** The index keeps the order of the node map: entries `a < b` of the index come
      from positions `i < j` of the map. */
  lemma {:induction false} IndexedOrder(nodes: seq<(string, StoredNode)>, a: int, b: int)
    requires 0 <= a < b < |Indexed(nodes)|
    ensures exists i, j | 0 <= i < j < |nodes| :: Indexed(nodes)[a] == nodes[i] && Indexed(nodes)[b] == nodes[j]
  {
    var front := nodes[..|nodes| - 1];
    var last := nodes[|nodes| - 1];
    var r := Indexed(nodes);
    var f := Indexed(front);
    assert r[a] == f[a];
    if b < |f| {
      assert r[b] == f[b];
      IndexedOrder(front, a, b);
      var i, j :| 0 <= i < j < |front| && f[a] == front[i] && f[b] == front[j];
      assert front[i] == nodes[i] && front[j] == nodes[j];
    } else {
      assert r[b] == last;
      IndexedMembers(front);
      assert f[a] in f;
      var i :| 0 <= i < |front| && front[i] == f[a];
      assert front[i] == nodes[i];
      assert r[a] == nodes[i] && r[b] == nodes[|nodes| - 1];
    }
  }

  /** The index entry of a kept node. */
  function InfoOf(e: (string, StoredNode)): NodeInfo
  {
    NodeInfo(OrElse(e.1.level, -1), OrElse(e.1.isLeaf, false), Prefix(NodeText(e.1), 200))
  }

  function Infos(kept: seq<(string, StoredNode)>): (r: seq<NodeInfo>)
    ensures |r| == |kept|
    ensures forall i | 0 <= i < |kept| :: r[i] == InfoOf(kept[i])
  {
    seq(|kept|, i requires 0 <= i < |kept| => InfoOf(kept[i]))
  }

  function Texts(kept: seq<(string, StoredNode)>): (r: seq<string>)
    ensures |r| == |kept|
    ensures forall i | 0 <= i < |kept| :: r[i] == NodeText(kept[i].1)
  {
    seq(|kept|, i requires 0 <= i < |kept| => NodeText(kept[i].1))
  }

  function Encode(texts: seq<string>, encode: string -> Embedding): (r: seq<Embedding>)
    ensures |r| == |texts|
    ensures forall i | 0 <= i < |texts| :: r[i] == encode(texts[i])
  {
    seq(|texts|, i requires 0 <= i < |texts| => encode(texts[i]))
  }

  /** The loop of `build_embeddings`: the texts, ids and index entries of the nodes with
      non-blank text, as three parallel lists in node-map order. */
  method IndexNodes(nodes: seq<(string, StoredNode)>) returns (texts: seq<string>, ids: seq<string>, infos: seq<NodeInfo>)
    ensures texts == Texts(Indexed(nodes)) && ids == Ids(Indexed(nodes)) && infos == Infos(Indexed(nodes))
  {
    texts, ids, infos := [], [], [];
    var i := 0;
    while i < |nodes|
      invariant 0 <= i <= |nodes|
      invariant texts == Texts(Indexed(nodes[..i]))
      invariant ids == Ids(Indexed(nodes[..i]))
      invariant infos == Infos(Indexed(nodes[..i]))
    {
      var (id, info) := nodes[i];
      var text := OrElse(info.summary, "") + " " + OrElse(info.content, "");
      IndexStep(nodes, i);
      if !IsBlank(text) {
        KeptSnoc(Indexed(nodes[..i]), nodes[i]);
        texts := texts + [text];
        ids := ids + [id];
        infos := infos + [NodeInfo(OrElse(info.level, -1), OrElse(info.isLeaf, false), Prefix(text, 200))];
      }
      i := i + 1;
    }
    assert nodes[..|nodes|] == nodes;
  }

  /** One node more: the index grows by that node exactly when its text is not blank. */
  lemma IndexStep(nodes: seq<(string, StoredNode)>, i: nat)
    requires i < |nodes|
    ensures Indexed(nodes[..i + 1]) == Indexed(nodes[..i]) + (if IsBlank(NodeText(nodes[i].1)) then [] else [nodes[i]])
  {
    assert nodes[..i + 1][..i] == nodes[..i];
  }

  /** The parallel lists of a kept node appended to the index. */
  lemma KeptSnoc(kept: seq<(string, StoredNode)>, e: (string, StoredNode))
    ensures Texts(kept + [e]) == Texts(kept) + [NodeText(e.1)]
    ensures Ids(kept + [e]) == Ids(kept) + [e.0]
    ensures Infos(kept + [e]) == Infos(kept) + [InfoOf(e)]
  {
  }

  /** A descending stable sort cut to `n` (Python's `[:n]`): sorted, drawn from the input,
      outranking every element cut off, all of the input when fewer than `n` come back,
      and free of repeats when the input is. */
  lemma TopPrefix<T>(s: seq<T>, key: T -> real, n: int)
    ensures var r := Prefix(SortDesc(s, key), n);
            |r| == SliceLength(|s|, n)
            && SortedDesc(r, key)
            && (forall x | x in r :: x in s)
            && (forall x | x in s && x !in r :: forall y | y in r :: key(y) >= key(x))
            && (n > |r| ==> forall x | x in s :: x in r)
            && (Distinct(s) ==> Distinct(r))
  {
    var sorted := SortDesc(s, key);
    SortDescFacts(s, key);
    SortDescLength(s, key);
    var r := Prefix(sorted, n);
    assert r == sorted[..|r|];
    forall x | x in sorted
      ensures x in s
    {
      assert x in multiset(s);
    }
    forall x | x in s && x !in r
      ensures forall y | y in r :: key(y) >= key(x)
    {
      assert x in multiset(sorted);
      PrefixDominates(sorted, key, |r|, x);
    }
    if n > |r| {
      assert r == sorted;
      forall x | x in s
        ensures x in r
      {
        assert x in multiset(sorted);
      }
    }
    if Distinct(s) {
      PermutationDistinct(s, sorted);
      forall a, b | 0 <= a < b < |r|
        ensures r[a] != r[b]
      {
        assert r[a] == sorted[a] && r[b] == sorted[b];
      }
    }
  }

  /** Ties the index's `top_k` ordering of similarity scores: `order` holds
      `len(sims[:top_k])`-many distinct positions of `sims`, by non-increasing score,
      and no position left out scores higher than one kept. */
  predicate TopOrder(sims: seq<real>, topK: int, order: seq<int>)
  {
    |order| == SliceLength(|sims|, topK)
    && (forall k | 0 <= k < |order| :: 0 <= order[k] < |sims|)
    && Distinct(order)
    && (forall a, b | 0 <= a < b < |order| :: sims[order[a]] >= sims[order[b]])
    && (forall j, k | 0 <= j < |sims| && 0 <= k < |order| && j !in order :: sims[order[k]] >= sims[j])
  }

  /** `np.argsort(sims)[::-1][:top_k]`. The order among equal scores is one admissible
      choice; the contract fixes none. */
  method TopIndices(sims: seq<real>, topK: int) returns (order: seq<int>)
    ensures TopOrder(sims, topK, order)
  {
    var positions := seq(|sims|, i requires 0 <= i < |sims| => i);
    var key := (i: int) => if 0 <= i < |sims| then sims[i] else 0.0;
    order := Prefix(SortDesc(positions, key), topK);
    TopPrefix(positions, key, topK);
    forall k | 0 <= k < |order|
      ensures 0 <= order[k] < |sims|
    {
      assert order[k] in positions;
    }
    assert Distinct(positions);
    forall j, k | 0 <= j < |sims| && 0 <= k < |order| && j !in order
      ensures sims[order[k]] >= sims[j]
    {
      assert positions[j] == j;
      assert order[k] in order;
    }
  }

  /** `SemanticSearchEngine`: the embedding index over the tree's nodes, with the three
      fields `build_embeddings` fills. */
  class SemanticSearchEngine {
    var embeddings: Option<seq<Embedding>>
    var nodeIds: Option<seq<string>>
    var nodeInfo: Option<seq<NodeInfo>>

    constructor ()
      ensures embeddings == None && nodeIds == None && nodeInfo == None
    {
      embeddings := None;
      nodeIds := None;
      nodeInfo := None;
    }

    /** Loads `cache` when one is given; otherwise indexes the nodes with non-blank text,
        keeping ids, per-node information and embeddings as parallel lists. */
    method BuildEmbeddings(data: TreeData, cache: Option<EmbeddingCache>, encode: string -> Embedding)
      modifies this
      ensures cache.Some? ==> embeddings == Some(cache.value.embeddings)
                              && nodeIds == Some(cache.value.nodeIds)
                              && nodeInfo == Some(cache.value.nodeInfo)
      ensures cache.None? ==> var kept := Indexed(TreeNodes(data));
                              nodeIds == Some(Ids(kept))
                              && nodeInfo == Some(Infos(kept))
                              && embeddings == Some(Encode(Texts(kept), encode))
      ensures cache.None? ==> Searchable() && |nodeIds.value| == |nodeInfo.value| == |embeddings.value|
    {
      if cache.Some? {
        embeddings := Some(cache.value.embeddings);
        nodeIds := Some(cache.value.nodeIds);
        nodeInfo := Some(cache.value.nodeInfo);
        return;
      }
      var texts, ids, infos := IndexNodes(TreeNodes(data));
      embeddings := Some(Encode(texts, encode));
      nodeIds := Some(ids);
      nodeInfo := Some(infos);
    }

    /** The index is built: every embedding has an id and an info entry. */
    predicate Searchable()
      reads this
    {
      embeddings.Some? && nodeIds.Some? && nodeInfo.Some?
      && |embeddings.value| <= |nodeIds.value| && |embeddings.value| <= |nodeInfo.value|
    }

    /** The query's similarity to each indexed embedding. */
    function Similarities(similarity: Embedding -> real): (r: seq<real>)
      reads this
      requires embeddings.Some?
      ensures |r| == |embeddings.value|
      ensures forall i | 0 <= i < |r| :: r[i] == similarity(embeddings.value[i])
    {
      var e := embeddings.value;
      seq(|e|, i requires 0 <= i < |e| => similarity(e[i]))
    }

    /** The result record for index position `i`. */
    function HitAt(sims: seq<real>, i: int): Hit
      reads this
      requires Searchable() && 0 <= i < |sims| && i < |embeddings.value|
    {
      Hit(nodeIds.value[i], sims[i], nodeInfo.value[i].level, nodeInfo.value[i].isLeaf, nodeInfo.value[i].text)
    }

    /** Ranks the index by the query's similarity: `len(index[:top_k])` results, by
        non-increasing similarity, for distinct positions that outrank every position
        left out. */
    method SemanticSearch(similarity: Embedding -> real, topK: int) returns (results: seq<Hit>)
      requires Searchable()
      ensures |results| == SliceLength(|embeddings.value|, topK)
      ensures SortedDesc(results, ScoreOf)
      ensures exists order :: TopOrder(Similarities(similarity), topK, order) && |order| == |results|
                && forall k | 0 <= k < |order| :: results[k] == HitAt(Similarities(similarity), order[k])
    {
      var sims := Similarities(similarity);
      var order := TopIndices(sims, topK);
      results := [];
      var k := 0;
      while k < |order|
        invariant 0 <= k <= |order|
        invariant |results| == k
        invariant forall m | 0 <= m < k :: results[m] == HitAt(sims, order[m])
      {
        var idx := order[k];
        var info := nodeInfo.value[idx];
        results := results + [Hit(nodeIds.value[idx], sims[idx], info.level, info.isLeaf, info.text)];
        k := k + 1;
      }
    }

    /** Keyword and semantic top-100 lists, keyword scores divided by their maximum,
        fused by `Fuse`. Every result is a tree node whose score is the weighted sum of
        its two subscores; the keyword subscore lies in [0, 1] and is 0 exactly for nodes
        the keyword search did not return; a non-zero semantic subscore is the node's
        similarity. The results are the fusion, with these weights and `top_k`, of the
        normalised keyword map and of the map of one admissible semantic top-100 ranking. */
    method HybridSearch(query: string, data: TreeData, similarity: Embedding -> real,
                        keywordWeight: real, semanticWeight: real, topK: int) returns (results: seq<Fused>)
      requires Searchable()
      ensures exists kw, sem :: KeywordSide(data, query, kw) && SemanticSide(sem, similarity)
                                && FusionOf(kw, sem, TreeNodes(data), keywordWeight, semanticWeight, topK, results)
      ensures SortedDesc(results, FusedScore)
      ensures topK >= 0 ==> |results| <= topK
      ensures forall a, b | 0 <= a < b < |results| :: results[a].nodeId != results[b].nodeId
      ensures forall h | h in results ::
                h.nodeId in Ids(TreeNodes(data))
                && h.score == keywordWeight * h.keywordScore + semanticWeight * h.semanticScore
                && 0.0 <= h.keywordScore <= 1.0
                && (h.keywordScore == 0.0 <==> forall k | k in KeywordRanking(data, query, 100) :: k.nodeId != h.nodeId)
                && (h.semanticScore == 0.0
                    || exists i | 0 <= i < |embeddings.value| :: nodeIds.value[i] == h.nodeId
                                                                  && h.semanticScore == similarity(embeddings.value[i]))
    {
      var keywordScores := KeywordScores(data, query);
      var semanticScores := SemanticScores(similarity);
      var tree := TreeNodes(data);
      results := Fuse(keywordScores, semanticScores, tree, keywordWeight, semanticWeight, topK);
      assert KeywordSide(data, query, keywordScores) && SemanticSide(semanticScores, similarity);
      forall h | h in results
        ensures h.nodeId in Ids(tree)
        ensures h.score == keywordWeight * h.keywordScore + semanticWeight * h.semanticScore
        ensures 0.0 <= h.keywordScore <= 1.0
        ensures h.keywordScore == 0.0 <==> forall k | k in KeywordRanking(data, query, 100) :: k.nodeId != h.nodeId
        ensures h.semanticScore == 0.0
                || exists i | 0 <= i < |embeddings.value| :: nodeIds.value[i] == h.nodeId
                                                              && h.semanticScore == similarity(embeddings.value[i])
      {
        CandidateFacts(keywordScores, semanticScores, tree, keywordWeight, semanticWeight, h);
      }
    }

    /** The result records for the index positions `order`, in that order. */
    function HitsAt(sims: seq<real>, order: seq<int>): (r: seq<Hit>)
      reads this
      requires Searchable() && |sims| <= |embeddings.value|
      requires forall k | 0 <= k < |order| :: 0 <= order[k] < |sims|
      ensures |r| == |order|
      ensures forall k | 0 <= k < |order| :: r[k] == HitAt(sims, order[k]) && r[k].nodeId == nodeIds.value[order[k]]
    {
      var ids, infos := nodeIds.value, nodeInfo.value;
      seq(|order|, k requires 0 <= k < |order| =>
        var i := order[k];
        Hit(ids[i], sims[i], infos[i].level, infos[i].isLeaf, infos[i].text))
    }

    /** The score map of ranked records is keyed by the ids at the ranked positions. */
    lemma HitsAtKeys(sims: seq<real>, order: seq<int>)
      requires Searchable() && |sims| <= |embeddings.value|
      requires forall k | 0 <= k < |order| :: 0 <= order[k] < |sims|
      ensures ScoreMap(HitsAt(sims, order)).Keys == set k | 0 <= k < |order| :: nodeIds.value[order[k]]
    {
      var hits := HitsAt(sims, order);
      var ids := set k | 0 <= k < |order| :: nodeIds.value[order[k]];
      forall id | id in ScoreMap(hits)
        ensures id in ids
      {
        var h :| h in hits && h.nodeId == id;
        var k :| 0 <= k < |hits| && hits[k] == h;
        assert nodeIds.value[order[k]] == id;
      }
      forall id | id in ids
        ensures id in ScoreMap(hits)
      {
        var k :| 0 <= k < |order| && nodeIds.value[order[k]] == id;
        assert hits[k] in hits;
      }
    }

    /** The score map of ranked records maps each id to the similarity of an embedding
        indexed under it. */
    lemma HitsAtSimilar(similarity: Embedding -> real, order: seq<int>)
      requires Searchable()
      requires forall k | 0 <= k < |order| :: 0 <= order[k] < |embeddings.value|
      ensures var m := ScoreMap(HitsAt(Similarities(similarity), order));
              forall id | id in m :: exists i | 0 <= i < |embeddings.value| ::
                nodeIds.value[i] == id && m[id] == similarity(embeddings.value[i])
    {
      var sims := Similarities(similarity);
      var hits := HitsAt(sims, order);
      var m := ScoreMap(hits);
      forall id | id in m
        ensures exists i | 0 <= i < |embeddings.value| ::
                  nodeIds.value[i] == id && m[id] == similarity(embeddings.value[i])
      {
        var h :| h in hits && h.nodeId == id && h.score == m[id];
        var k :| 0 <= k < |hits| && hits[k] == h;
        var i := order[k];
        assert h == HitAt(sims, i);
        assert nodeIds.value[i] == id && m[id] == similarity(embeddings.value[i]);
      }
    }

    /** The semantic side of the hybrid search: the score map of the records of a top-100
        ranking of the similarities, keyed by the ids at the ranked positions. */
    ghost predicate SemanticSide(sem: map<string, real>, similarity: Embedding -> real)
      reads this
      requires Searchable()
    {
      var sims := Similarities(similarity);
      exists order :: TopOrder(sims, 100, order) && sem == ScoreMap(HitsAt(sims, order))
                      && sem.Keys == set k | 0 <= k < |order| :: nodeIds.value[order[k]]
    }

    /** `{r["node_id"]: r["score"] for r in semantic_search(query, 100)}`: the score map
        of a top-100 ranking, where each id maps to that node's similarity. */
    method SemanticScores(similarity: Embedding -> real) returns (scores: map<string, real>)
      requires Searchable()
      ensures SemanticSide(scores, similarity)
      ensures forall id | id in scores :: exists i | 0 <= i < |embeddings.value| ::
                nodeIds.value[i] == id && scores[id] == similarity(embeddings.value[i])
    {
      var semanticResults := SemanticSearch(similarity, 100);
      scores := ScoreMap(semanticResults);
      ghost var sims := Similarities(similarity);
      ghost var order :| TopOrder(sims, 100, order) && |order| == |semanticResults|
                         && forall k | 0 <= k < |order| :: semanticResults[k] == HitAt(sims, order[k]);
      assert semanticResults == HitsAt(sims, order);
      HitsAtKeys(sims, order);
      HitsAtSimilar(similarity, order);
    }
  }

  /** The keyword side of the hybrid search: the score map of the top-100 keyword
      ranking, divided by its maximum when it has entries. */
  ghost predicate KeywordSide(data: TreeData, query: string, kw: map<string, real>)
  {
    var raw := ScoreMap(KeywordRanking(data, query, 100));
    (raw == map[] ==> kw == map[])
    && (raw != map[] ==> exists mx :: IsMax(raw, mx) && mx > 0.0 && kw == Normalise(raw, mx))
  }

  /** The keyword side of `hybrid_search`: the top-100 keyword scores, divided by their
      maximum when there are any. The ids are those of the keyword results, each with a
      score in (0, 1], and the best scores 1. */
  method KeywordScores(data: TreeData, query: string) returns (scores: map<string, real>)
    ensures KeywordSide(data, query, scores)
    ensures scores.Keys == set h | h in KeywordRanking(data, query, 100) :: h.nodeId
    ensures forall id | id in scores :: 0.0 < scores[id] <= 1.0
    ensures scores != map[] ==> exists id | id in scores :: scores[id] == 1.0
  {
    var keywordResults := SimpleKeywordSearch(data, query, 100);
    scores := ScoreMap(keywordResults);
    KeywordRankingFacts(data, query, 100);
    assert forall id | id in scores :: scores[id] >= 1.0;
    ghost var raw := scores;
    if |scores| > 0 {
      var maxKeyword := MaxValue(scores);
      NormaliseRange(scores, maxKeyword);
      scores := Normalise(scores, maxKeyword);
      assert IsMax(raw, maxKeyword) && maxKeyword > 0.0 && scores == Normalise(raw, maxKeyword);
    }
  }

  // ---------------------------------------------------------------------------
  // Hybrid fusion
  // ---------------------------------------------------------------------------

  /** `{r["node_id"]: r["score"] for r in results}`: a later entry for a repeated id wins. */
  function ScoreMap(hits: seq<Hit>): (m: map<string, real>)
    ensures m.Keys == set h | h in hits :: h.nodeId
    ensures forall id | id in m :: exists h | h in hits :: h.nodeId == id && h.score == m[id]
  {
    if hits == [] then map[]
    else
      var front, last := hits[..|hits| - 1], hits[|hits| - 1];
      var m := ScoreMap(front)[last.nodeId := last.score];
      assert hits == front + [last];
      m
  }

  /** `mx` is the largest value of `m`. */
  predicate IsMax(m: map<string, real>, mx: real)
  {
    (forall k | k in m :: m[k] <= mx) && exists k | k in m :: m[k] == mx
  }

  /** `max(scores.values())`. */
  method MaxValue(m: map<string, real>) returns (mx: real)
    requires |m| > 0
    ensures IsMax(m, mx)
  {
    assert m.Keys != {};
    SetHasMember(m.Keys);
    var first :| first in m.Keys;
    mx := m[first];
    var rest := m.Keys - {first};
    while rest != {}
      invariant rest <= m.Keys
      invariant forall k | k in m && k !in rest :: m[k] <= mx
      invariant exists k | k in m :: m[k] == mx
      decreases |rest|
    {
      var k :| k in rest;
      if m[k] > mx {
        mx := m[k];
      }
      rest := rest - {k};
    }
  }

  /** `{k: v / mx for k, v in scores.items()}`. */
  function Normalise(m: map<string, real>, mx: real): (r: map<string, real>)
    requires mx > 0.0
    ensures r.Keys == m.Keys
  {
    map k | k in m :: m[k] / mx
  }

  /** Dividing positive scores by their maximum puts them in (0, 1], the best at 1. */
  lemma NormaliseRange(m: map<string, real>, mx: real)
    requires IsMax(m, mx) && forall k | k in m :: m[k] > 0.0
    ensures mx > 0.0
    ensures forall k | k in m :: 0.0 < Normalise(m, mx)[k] <= 1.0
    ensures exists k | k in m :: Normalise(m, mx)[k] == 1.0
  {
    var best :| best in m && m[best] == mx;
    forall k | k in m
      ensures 0.0 < Normalise(m, mx)[k] <= 1.0
    {
      NormaliseAt(m, mx, k);
      DivAtMostOne(m[k], mx);
    }
    NormaliseAt(m, mx, best);
  }

  lemma NormaliseAt(m: map<string, real>, mx: real, k: string)
    requires mx > 0.0 && k in m
    ensures Normalise(m, mx)[k] == m[k] / mx
  {
  }

  lemma DivAtMostOne(a: real, b: real)
    requires 0.0 < a <= b
    ensures 0.0 < a / b <= 1.0
  {
  }

  /** `scores.get(id, 0)`. */
  function ScoreOr0(m: map<string, real>, id: string): real
  {
    if id in m then m[id] else 0.0
  }

  /** A hybrid result: the weighted score with both subscores. */
  datatype Fused = Fused(nodeId: string, score: real, keywordScore: real, semanticScore: real,
                         level: int, isLeaf: bool, text: string)

  function FusedScore(h: Fused): real { h.score }

  /** The hybrid record of a tree node; a side missing the id counts 0. */
  function FusedHit(kw: map<string, real>, sem: map<string, real>, kwWeight: real, semWeight: real,
                    id: string, node: StoredNode): (r: Fused)
    ensures r.score == kwWeight * r.keywordScore + semWeight * r.semanticScore
    ensures (id !in kw ==> r.keywordScore == 0.0) && (id !in sem ==> r.semanticScore == 0.0)
  {
    var k, s := ScoreOr0(kw, id), ScoreOr0(sem, id);
    Fused(id, kwWeight * k + semWeight * s, k, s, OrElse(node.level, -1), OrElse(node.isLeaf, false),
          Prefix(NodeText(node), 200))
  }

  /** The record an id contributes to the fusion: only ids found by either search and
      present in the tree contribute. */
  function Candidate(kw: map<string, real>, sem: map<string, real>, tree: NodeMap,
                     kwWeight: real, semWeight: real, id: string): Option<Fused>
  {
    if (id in kw || id in sem) && Lookup(tree, id).Some?
    then Some(FusedHit(kw, sem, kwWeight, semWeight, id, Lookup(tree, id).value))
    else None
  }

  lemma SetHasMember<T>(s: set<T>)
    requires s != {}
    ensures exists x :: x in s
  {
    NonEmptySet(s);
  }

  /** `combined` holds one record for each candidate among the ids `done`, and nothing
      else. */
  predicate Gathered(kw: map<string, real>, sem: map<string, real>, tree: NodeMap,
                     kwWeight: real, semWeight: real, done: set<string>, combined: seq<Fused>)
  {
    (forall h | h in combined :: Candidate(kw, sem, tree, kwWeight, semWeight, h.nodeId) == Some(h) && h.nodeId in done)
    && (forall a, b | 0 <= a < b < |combined| :: combined[a].nodeId != combined[b].nodeId)
    && (forall id | id in done && Candidate(kw, sem, tree, kwWeight, semWeight, id).Some? ::
          exists h | h in combined :: h.nodeId == id)
  }

  /** One step of the fusion loop keeps `Gathered`. */
  lemma GatherStep(kw: map<string, real>, sem: map<string, real>, tree: NodeMap, kwWeight: real, semWeight: real,
                   all: set<string>, remaining: set<string>, combined: seq<Fused>, id: string, next: seq<Fused>)
    requires all == kw.Keys + sem.Keys && remaining <= all && id in remaining
    requires Gathered(kw, sem, tree, kwWeight, semWeight, all - remaining, combined)
    requires var c := Candidate(kw, sem, tree, kwWeight, semWeight, id);
             next == combined + (if c.Some? then [c.value] else [])
    ensures Gathered(kw, sem, tree, kwWeight, semWeight, all - (remaining - {id}), next)
  {
    assert all - (remaining - {id}) == (all - remaining) + {id};
    forall a, b | 0 <= a < b < |next|
      ensures next[a].nodeId != next[b].nodeId
    {
      if b == |combined| {
        assert next[a] in combined;
      }
    }
  }

  /** The ids of the union of both sides that contribute a record. */
  function CandidateIds(kw: map<string, real>, sem: map<string, real>, tree: NodeMap,
                        kwWeight: real, semWeight: real): set<string>
  {
    set id | id in kw.Keys + sem.Keys && Candidate(kw, sem, tree, kwWeight, semWeight, id).Some?
  }

  /** A list of records with distinct ids has as many ids as records. */
  lemma {:induction false} DistinctIdsCount(hs: seq<Fused>)
    requires forall a, b | 0 <= a < b < |hs| :: hs[a].nodeId != hs[b].nodeId
    ensures |set h | h in hs :: h.nodeId| == |hs|
  {
    if hs != [] {
      var front, last := hs[..|hs| - 1], hs[|hs| - 1];
      assert hs == front + [last];
      DistinctIdsCount(front);
      assert last.nodeId !in set h | h in front :: h.nodeId by {
        forall h | h in front
          ensures h.nodeId != last.nodeId
        {
          var a :| 0 <= a < |front| && front[a] == h;
          assert hs[a] == h;
        }
      }
      assert (set h | h in hs :: h.nodeId) == (set h | h in front :: h.nodeId) + {last.nodeId};
    }
  }

  /** `results` is a fusion of `kw` and `sem` over `tree`: sorted by descending score, as
      long as Python's `[:top_k]` of the list of all candidate records (for a negative
      `top_k`, all but the last `-top_k`), at most `top_k` long, made of candidates' records with distinct ids, outranking every
      candidate left out, and holding every candidate when fewer than `top_k` come
      back. */
  ghost predicate FusionOf(kw: map<string, real>, sem: map<string, real>, tree: NodeMap, kwWeight: real, semWeight: real,
                           topK: int, results: seq<Fused>)
  {
    SortedDesc(results, FusedScore)
    && |results| == SliceLength(|CandidateIds(kw, sem, tree, kwWeight, semWeight)|, topK)
    && (topK >= 0 ==> |results| <= topK)
    && (forall h | h in results :: Candidate(kw, sem, tree, kwWeight, semWeight, h.nodeId) == Some(h))
    && (forall a, b | 0 <= a < b < |results| :: results[a].nodeId != results[b].nodeId)
    && (forall id | Candidate(kw, sem, tree, kwWeight, semWeight, id).Some? && (forall h | h in results :: h.nodeId != id) ::
          forall h | h in results :: h.score >= kwWeight * ScoreOr0(kw, id) + semWeight * ScoreOr0(sem, id))
    && (topK > |results| ==>
          forall id | Candidate(kw, sem, tree, kwWeight, semWeight, id).Some? :: exists h | h in results :: h.nodeId == id)
  }

  /** The records of the gathered candidates, sorted and cut to `top_k`, meet the
      contract of `Fuse`. */
  lemma FuseFacts(kw: map<string, real>, sem: map<string, real>, tree: NodeMap, kwWeight: real, semWeight: real,
                  combined: seq<Fused>, topK: int)
    requires Gathered(kw, sem, tree, kwWeight, semWeight, kw.Keys + sem.Keys, combined)
    ensures FusionOf(kw, sem, tree, kwWeight, semWeight, topK, Prefix(SortDesc(combined, FusedScore), topK))
  {
    var results := Prefix(SortDesc(combined, FusedScore), topK);
    assert Distinct(combined);
    TopPrefix(combined, FusedScore, topK);
    DistinctIdsCount(combined);
    assert (set h | h in combined :: h.nodeId) == CandidateIds(kw, sem, tree, kwWeight, semWeight);
    forall a, b | 0 <= a < b < |results|
      ensures results[a].nodeId != results[b].nodeId
    {
      assert results[a] in combined && results[b] in combined;
    }
    forall id | Candidate(kw, sem, tree, kwWeight, semWeight, id).Some? && (forall h | h in results :: h.nodeId != id)
      ensures forall h | h in results :: h.score >= kwWeight * ScoreOr0(kw, id) + semWeight * ScoreOr0(sem, id)
    {
      var h0 :| h0 in combined && h0.nodeId == id;
      assert h0 !in results;
    }
    if topK > |results| {
      forall id | Candidate(kw, sem, tree, kwWeight, semWeight, id).Some?
        ensures exists h | h in results :: h.nodeId == id
      {
        var h0 :| h0 in combined && h0.nodeId == id;
        assert h0 in results;
      }
    }
  }

  /** What a fused record carries: a tree node, the weighted score, a keyword subscore
      that is 0 exactly when the keyword side lacks the id, and a semantic subscore that
      is 0 or the semantic side's score. */
  lemma CandidateFacts(kw: map<string, real>, sem: map<string, real>, tree: NodeMap,
                       kwWeight: real, semWeight: real, h: Fused)
    requires Candidate(kw, sem, tree, kwWeight, semWeight, h.nodeId) == Some(h)
    requires forall id | id in kw :: 0.0 < kw[id] <= 1.0
    ensures h.nodeId in Ids(tree)
    ensures h.score == kwWeight * h.keywordScore + semWeight * h.semanticScore
    ensures 0.0 <= h.keywordScore <= 1.0
    ensures h.keywordScore == 0.0 <==> h.nodeId !in kw
    ensures h.semanticScore == 0.0 || (h.nodeId in sem && h.semanticScore == sem[h.nodeId])
    ensures h.keywordScore == ScoreOr0(kw, h.nodeId) && h.semanticScore == ScoreOr0(sem, h.nodeId)
  {
  }

  /** The fusion loop of `hybrid_search`: every id of the union that is a tree node
      contributes its record; the records are sorted by descending score and cut to
      `top_k`. Results are candidates' records with distinct ids, and outrank every
      candidate left out; when fewer than `top_k` come back, every candidate is there. */
  method Fuse(kw: map<string, real>, sem: map<string, real>, tree: NodeMap,
              kwWeight: real, semWeight: real, topK: int) returns (results: seq<Fused>)
    ensures FusionOf(kw, sem, tree, kwWeight, semWeight, topK, results)
  {
    var all := kw.Keys + sem.Keys;
    var remaining := all;
    var combined: seq<Fused> := [];
    while remaining != {}
      invariant remaining <= all
      invariant Gathered(kw, sem, tree, kwWeight, semWeight, all - remaining, combined)
      decreases |remaining|
    {
      SetHasMember(remaining);
      var id :| id in remaining;
      ghost var before := combined;
      var entry := Lookup(tree, id);
      if entry.Some? {
        combined := combined + [FusedHit(kw, sem, kwWeight, semWeight, id, entry.value)];
      }
      GatherStep(kw, sem, tree, kwWeight, semWeight, all, remaining, before, id, combined);
      remaining := remaining - {id};
    }
    assert all - remaining == all;
    FuseFacts(kw, sem, tree, kwWeight, semWeight, combined, topK);
    results := Prefix(SortDesc(combined, FusedScore), topK);
  }
}
