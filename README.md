# Treg RAPTOR tree: classifier, corpus intake, search and visualisation model

This project is a Dafny model of the core of a pipeline that builds a RAPTOR tree
(a hierarchy of clustered and summarised documents) over PubMed abstracts about
regulatory T cell (Treg) differentiation. It then searches that tree and draws it.

The model covers four pieces:

* **The Treg vocabulary** (`vocab.dfy`, module `TregVocab`):
  * the eight-stage level table;
  * the first-match-wins stage classifier `determine_treg_level`;
  * the stage-specific cluster labeller;
  * the ASCII label check and the level-keyword extractor.

  `cases.dfy` (module `TregCases`) proves the classifier's results on the five
  texts of the stage-4 regression script.
* **Corpus intake of the 16x builder** (`intake.dfy`, module `CorpusBuilder`):
  * PubMed detail fetching in batches of 200;
  * per-level collection with duplicate removal and the 200-article cap at level 0;
  * document creation, with a 500-document sub-sample at level 0;
  * the per-level document histogram;
  * the node records written to the tree file.
* **Search over the saved tree** (`search.dfy`, module `RaptorSearch`):
  * the keyword baseline;
  * the embedding index of `SemanticSearchEngine` and its top-k semantic ranking;
  * the weighted hybrid fusion.
* **The visualiser's computations** (`treeviz.dfy`, module `TreeViz`):
  * tree statistics;
  * the parent-to-child graph;
  * the internal-node filter for large trees;
  * the per-level layout coordinates;
  * the per-stage node histogram.

Shared helpers sit in their own modules:

* `strings.dfy`: substring test, `lower`, `split`, slicing, `str(int)`.
* `tally.dfy`: dict counters and sums.
* `ranking.dfy`: stable descending sort and top-k.
* `records.dfy`: the stored node record and `.get` defaults.

External services are function parameters:

* PubMed search: `search`, from a query to a PMID list.
* PubMed efetch: `efetch`, from a PMID batch to parsed articles, or `None` when the
  request fails.
* The sentence encoder: `encode`.
* The query-to-node cosine similarity: `similarity`.

Where the documentation and the code disagree, the model follows the code:

* The level table has eight keys. Key 7 is the `ROOT` entry; its literal repeats key 7,
  and Python keeps that repeat nested inside `ROOT`. The classifier's docstring speaks
  of levels 0-6, but the code returns 7 for iTreg texts.
* The stage-4 regression script expects level 0 for "regulatory t cell suppression".
  The classifier as written returns 4 for that text, because the `regulatory t`
  fallback applies. `TregCases.OracleRegulatory` proves 4.

## Model

| member | source | states |
|---|---|---|
| TregVocab.LevelMapping | enhanced_treg_vocab.py:16-93 | the table has exactly the keys 0..7; key 7 is `ROOT` and carries the iTreg entry nested under its own key 7; entries 0..6 have nothing nested; only entry 4 has its markers as named groups; the level-specific keys (`human_treg_markers`, `stability_markers`, `cytokines`, `mechanisms`, and the iTreg entry's `origin` and `stability`) are carried in `extras` |
| TregVocab.DetermineTregLevel | enhanced_treg_vocab.py:302-460 | every text is classified into a stage between 0 and 7 |
| TregVocab.CombinationReachesScore | enhanced_treg_vocab.py:330-339 | a text with both a functional cytokine and a functional mechanism reaches the functional threshold (the score is kept doubled, so 0.5 steps are whole) |
| TregVocab.Level6Iff | enhanced_treg_vocab.py:330-340 | the text is stage 6 exactly when its functional score reaches 2 |
| TregVocab.Level5Iff | enhanced_treg_vocab.py:343-356 | the text is stage 5 exactly when it is below the functional threshold and names a Foxp3-specific phrase; stability markers make no difference |
| TregVocab.NtregBeforeItreg | enhanced_treg_vocab.py:360-370 | with no functional or Foxp3 result, an nTreg-specific phrase gives stage 4 even when iTreg phrases are present too |
| TregVocab.ItregSpecificGives7 | enhanced_treg_vocab.py:364-374 | with no earlier rule firing, an iTreg-specific phrase gives stage 7 |
| TregVocab.Level7ExcludesNtreg | enhanced_treg_vocab.py:368-374 | no text classified as stage 7 contains an nTreg-specific phrase |
| TregVocab.Level3Iff | enhanced_treg_vocab.py:377-385 | stage 3 holds exactly when the surface-marker phrase is present, no advanced marker is present, and every earlier rule fails |
| TregVocab.PrecursorNeedsNoContext | enhanced_treg_vocab.py:390-429 | stages 1 and 2 are only given to texts with no Treg context word |
| TregVocab.ContextZeroIsFallback | enhanced_treg_vocab.py:439-460 | a Treg-context text classified 0 names no general iTreg or nTreg word, `regulatory t` or `cd25+` |
| TregVocab.ContextFallback | enhanced_treg_vocab.py:439-460 | the fallback order for a Treg-context text that no specific rule classifies: general iTreg words give 7; general nTreg words, `regulatory t` or `cd25+` give 4; anything else gives 0 |
| TregVocab.EffectiveLevel | enhanced_treg_vocab.py:477-478 | a level outside the table is replaced by 0, and a level in 0..7 is kept |
| TregVocab.LabelShape | enhanced_treg_vocab.py:464-539 | every label starts with its level's head line and ends with the `(n=size)` tag |
| TregVocab.UnknownLevelLabelsAsHsc | enhanced_treg_vocab.py:477-480 | a level outside 0..7 is labelled exactly as level 0 |
| TregVocab.Level7LabelPrefix | enhanced_treg_vocab.py:520-529 | every stage-7 label starts with `iTreg (Induced)`, not with the table entry's name `ROOT` |
| TregVocab.LabelStartsWithName | enhanced_treg_vocab.py:480-539 | for levels 0..6 the label starts with the table entry's name |
| TregVocab.PrecursorLabel | enhanced_treg_vocab.py:538-539 | levels 0..2 get the default label: name, `Cluster id`, size tag |
| TregVocab.ValidateImmuneTerminology | enhanced_treg_vocab.py:545-555 | a label is valid exactly when it has at least 2 characters and is all ASCII, with the matching message in each case |
| TregVocab.PrecursorLabelsValidate | enhanced_treg_vocab.py:538-555 | every label of levels 0..2 passes validation |
| TregVocab.Level3LabelsFailValidation | enhanced_treg_vocab.py:531-536 | every level-3 label fails validation as non-ASCII (it contains `α` or `−`) |
| TregVocab.KeywordPool | enhanced_treg_vocab.py:562-567 | a level outside the table contributes no keywords |
| TregVocab.FoundIn | enhanced_treg_vocab.py:570 | the found list holds exactly the pool words that occur in the text, with no repeats |
| TregVocab.ExtractLevelKeywords | enhanced_treg_vocab.py:557-571 | at most 5 distinct keywords, each from the level's markers or keywords and found in the lower-cased text; when fewer than 5 are returned, every matching pool word is among them |
| TregCases.OracleThymic | test_level4_fix.py:5 | "thymic treg natural regulatory cells" is stage 4 |
| TregCases.OracleInduced | test_level4_fix.py:6 | "induced treg peripheral conversion TGF-beta" is stage 7 |
| TregCases.OracleRegulatory | test_level4_fix.py:7 | "regulatory t cell suppression" is stage 4 under the code as written (the script expects 0) |
| TregCases.OracleFoxp3 | test_level4_fix.py:8 | "foxp3 positive regulatory" is stage 5 |
| TregCases.OracleFunctional | test_level4_fix.py:9 | "il-10 secreting suppressive function" is stage 6 |
| CorpusBuilder.Parse | build_treg_raptor_16x.py:160-174 | every parsed article has a non-empty abstract |
| CorpusBuilder.KeepsAbstract | build_treg_raptor_16x.py:166-169 | an article is kept exactly when one of its AbstractText elements has text |
| CorpusBuilder.ParseMembers | build_treg_raptor_16x.py:160-174 | every kept article comes from one element, and every element with an abstract is kept |
| CorpusBuilder.BatchesFacts | build_treg_raptor_16x.py:141-144 | there are ceil(n/200) batches and batch k is the slice from 200k to 200k+200 |
| CorpusBuilder.FetchedBatchesFacts | build_treg_raptor_16x.py:153-181 | every fetched article has an abstract and comes from a batch whose request succeeded; a failed batch contributes nothing |
| CorpusBuilder.ParseResponse | build_treg_raptor_16x.py:160-176 | the element loop returns the parsed articles of the response |
| CorpusBuilder.FetchArticleDetails | build_treg_raptor_16x.py:125-187 | the batch loop returns, in order, the articles of every successful batch; an empty PMID list returns nothing |
| CorpusBuilder.CollectQuery | build_treg_raptor_16x.py:214-224 | the result is `Gather`'s: what was collected before, then, in article order, each article whose PMID is neither seen nor already collected, tagged with level and query, with level 0 taking nothing once 200 are held; each new entry is unseen and tagged; PMIDs stay distinct and `local_seen` is their set; at level 0 the list stays within 200, and below the cap every unseen article's PMID is taken |
| CorpusBuilder.GatherCapped | build_treg_raptor_16x.py:214-224 | the cap applies only at level 0, and there it keeps the first 200 entries of the uncapped collection (`Fresh`): later articles are dropped, never earlier ones |
| CorpusBuilder.FetchLevelArticles | build_treg_raptor_16x.py:189-231 | returns the level; the list is `CollectAll`'s: the queries run in order, each query's fetched articles go through `Gather`, and level 0 runs no query once 200 are held, so an article is tagged with the first query that returned it; every collected article is unseen, tagged with that level and a query of that level, and comes from that query's fetch; PMIDs are distinct; level 0 holds at most 200; below the cap no unseen article of any query is missed |
| CorpusBuilder.CollectQueryStep | build_treg_raptor_16x.py:198-224 | the invariant of the query loop survives one query |
| CorpusBuilder.Documents | build_treg_raptor_16x.py:381-398 | one document per article, in article order, each built from its index and article |
| CorpusBuilder.DocumentsFacts | build_treg_raptor_16x.py:381-398 | document i has id `doc_i`, ids are pairwise different, every level is in 0..7, every label ends with `(n=1)`, and the documents are distinct |
| CorpusBuilder.MakeDocuments | build_treg_raptor_16x.py:379-398 | the loop builds exactly the document list |
| CorpusBuilder.SplitByLevel | build_treg_raptor_16x.py:408-409 | the level-0 and the other documents partition the list |
| CorpusBuilder.CreateTregDocuments | build_treg_raptor_16x.py:368-420 | fewer than 100 articles give no documents; at most 500 level-0 documents leave the list unchanged; otherwise the result is a 500-document sample of the level-0 documents followed by all other documents |
| CorpusBuilder.SampledDocuments | build_treg_raptor_16x.py:411-417 | after sampling the documents stay distinct and exactly 500 are at level 0 |
| CorpusBuilder.AnalyzeDocumentDistribution | build_treg_raptor_16x.py:422-429 | counters exist for exactly the stages 0..7, each counts the documents of its stage, and they sum to the document count |
| CorpusBuilder.DistributionFacts | build_treg_raptor_16x.py:426-429 | the same three facts for the counting function the method follows |
| CorpusBuilder.SerializedFacts | build_treg_raptor_16x.py:545-558 | a stored record holds a content prefix and a summary prefix of at most 500 characters each, at most 30 source documents, and no empty parent; the cluster id is present when it was set; level and leaf flag are kept |
| CorpusBuilder.SerializeTree | build_treg_raptor_16x.py:545-558 | the stored map has the tree's ids in order, each mapped to its serialised record |
| CorpusBuilder.TreeStats | build_treg_raptor_16x.py:510-512 | the node count, the number of nodes marked as leaves, and the maximum level: 0 for an empty tree, otherwise a bound reached by some node |
| CorpusBuilder.CountLeaves | build_treg_raptor_16x.py:512 | the count is the size of the set of leaf positions, so at most the node count |
| RaptorSearch.KeywordScore | test_raptor_semantic_search.py:71-88 | the score never exceeds the number of distinct query words |
| RaptorSearch.KeywordScorePositive | test_raptor_semantic_search.py:88-90 | the score is positive exactly when some query word occurs in the lower-cased text |
| RaptorSearch.KeywordHitsSound | test_raptor_semantic_search.py:79-97 | every result is the record of a node whose score is positive |
| RaptorSearch.KeywordHitsComplete | test_raptor_semantic_search.py:79-97 | every node with a positive score has its record among the results |
| RaptorSearch.SimpleKeywordSearch | test_raptor_semantic_search.py:67-101 | returns the stable descending sort of the hits cut to `top_k` |
| RaptorSearch.KeywordRankingFacts | test_raptor_semantic_search.py:67-101 | the results are sorted by score and at most `top_k` long; each is a matching node's record with score between 1 and the word count and text of at most 200 characters; a dropped match scores no higher than any kept one; when fewer than `top_k` are returned, every match is returned |
| RaptorSearch.BlankQueryFindsNothing | test_raptor_semantic_search.py:71-90 | a query of only white space finds no node |
| RaptorSearch.IndexedMembers | test_raptor_semantic_search.py:140-146 | the index holds exactly the nodes whose text is not blank |
| RaptorSearch.IndexedOrder | test_raptor_semantic_search.py:140-148 | the index keeps the node map's order |
| RaptorSearch.IndexNodes | test_raptor_semantic_search.py:133-153 | the loop's texts, ids and infos are those of the non-blank nodes, in order |
| RaptorSearch.SemanticSearchEngine.BuildEmbeddings | test_raptor_semantic_search.py:119-171 | with a cache, the three fields come from it; otherwise ids, infos and embeddings are those of the non-blank nodes, the engine can search, and the three lists have equal length |
| RaptorSearch.TopIndices | test_raptor_semantic_search.py:193 | the indices are a top-k order of the similarities |
| RaptorSearch.TopPrefix | test_raptor_semantic_search.py:99-101 | the top-k prefix has the expected length, is sorted, is drawn from the input, dominates every dropped element, is complete when k exceeds its length, and keeps distinctness |
| RaptorSearch.SemanticSearchEngine.SemanticSearch | test_raptor_semantic_search.py:182-205 | `min(k, n)` results sorted by similarity, each the record of the index entry at the next position of a top-k order |
| RaptorSearch.SemanticSearchEngine.SemanticScores | test_raptor_semantic_search.py:219-220 | the map is `SemanticSide`: the score map of the records of a top-100 ranking of the similarities (`TopOrder`), keyed exactly by the ids at the ranked positions; every score is the similarity of an index entry with that id |
| RaptorSearch.SemanticSearchEngine.HitsAtKeys | test_raptor_semantic_search.py:196-205 | the score map of the records at ranked positions has exactly the ids at those positions |
| RaptorSearch.SemanticSearchEngine.HitsAtSimilar | test_raptor_semantic_search.py:196-205 | each id of that score map maps to the similarity of an embedding indexed under it |
| RaptorSearch.KeywordScores | test_raptor_semantic_search.py:215-225 | the map is `KeywordSide`: empty when there are no top-100 keyword hits, otherwise the hits' score map divided by its maximum; its ids are exactly the hits', each score in (0, 1], and some id scores 1 |
| RaptorSearch.ScoreMap | test_raptor_semantic_search.py:216 | the dict has exactly the hits' ids and each value is the score of a hit with that id |
| RaptorSearch.MaxValue | test_raptor_semantic_search.py:224 | returns the largest value of a non-empty map |
| RaptorSearch.NormaliseRange | test_raptor_semantic_search.py:223-225 | dividing positive scores by their maximum gives scores in (0, 1], one of them exactly 1 |
| RaptorSearch.FusedHit | test_raptor_semantic_search.py:234-256 | hybrid score = keyword weight × keyword score + semantic weight × semantic score, a side missing the id counting 0 |
| RaptorSearch.CandidateFacts | test_raptor_semantic_search.py:228-256 | a fused record is for a node of the tree, obeys the weighted formula, carries the two sides' scores for its id (0 for a side that lacks it), has a keyword score in [0, 1] that is 0 exactly when the keyword side lacks the id, and a semantic score that is 0 or the semantic side's value |
| RaptorSearch.GatherStep | test_raptor_semantic_search.py:233-256 | one more id of the union keeps the gathered list equal to the candidates seen so far |
| RaptorSearch.Fuse | test_raptor_semantic_search.py:228-260 | `FusionOf`: exactly as many results as Python's `[:top_k]` keeps of the candidate records (all but the last `-top_k` for a negative `top_k`), so at most `top_k`, sorted by hybrid score, each a candidate record with a distinct id; a dropped candidate scores no higher than any kept one; when fewer than `top_k` are returned, all candidates are |
| RaptorSearch.SemanticSearchEngine.HybridSearch | test_raptor_semantic_search.py:207-260 | the results are a `FusionOf`, with the given weights and `top_k`, of the keyword map of `KeywordSide` and a semantic map of `SemanticSide`; hence as many results as `[:top_k]` keeps of the candidates, at most `top_k`, sorted by hybrid score, distinct ids, every id in the tree, the weighted formula, a keyword score in [0, 1] that is 0 exactly when the id is not a top-100 keyword hit, and a semantic score that is 0 or the similarity of that id's index entry |
| TreeViz.LeavesAndInternal | visualize_treg_raptor_tree.py:32-33 | leaf and internal counts sum to the node count |
| TreeViz.ClusterIdsMember | visualize_treg_raptor_tree.py:45-47 | a cluster id is counted exactly when some node carries it |
| TreeViz.TreeHistograms | visualize_treg_raptor_tree.py:40-47 | the loop builds the level counter and the cluster counter |
| TreeViz.LevelHistogram | visualize_treg_raptor_tree.py:40-42 | the level counter has exactly the levels that occur, counts each, and sums to the node count |
| TreeViz.ClusterHistogram | visualize_treg_raptor_tree.py:44-47 | the cluster counter has exactly the cluster ids that occur, counts each, and sums to at most the node count |
| TreeViz.AnalyzeTreeStructure | visualize_treg_raptor_tree.py:26-49 | total, leaves, internal nodes (summing to the total), maximum level (0 when empty, otherwise reached), and both histograms as above |
| TreeViz.CreateTreeGraph | visualize_treg_raptor_tree.py:51-71 | the graph's nodes are the tree's ids; there is an edge from a node to each of its listed children that is in the tree, and only those edges |
| TreeViz.InternalNodes | visualize_treg_raptor_tree.py:97-101 | the filtered tree holds exactly the non-leaf nodes |
| TreeViz.GraphTree | visualize_treg_raptor_tree.py:94-105 | with `internal_only` and more than 500 nodes the drawn tree is exactly the internal nodes, otherwise the whole tree |
| TreeViz.DetermineNodeTregLevel | visualize_treg_raptor_tree.py:73-83 | a node's stage, classified from content then summary, is in 0..7 |
| TreeViz.LevelDistribution | visualize_treg_raptor_tree.py:257-266 | counters exist for exactly the stages 0..7, each counts the nodes of its stage, and they sum to the node count |
| TreeViz.GroupByLevel | visualize_treg_raptor_tree.py:144-151 | the per-level lists: a level is a key exactly when a graph node has it, and each list holds that level's nodes in graph order |
| TreeViz.PlaceLevel | visualize_treg_raptor_tree.py:157-162 | node i of a level is placed at `((i - n/2) * 4, y)` and every other position is unchanged |
| TreeViz.Layout | visualize_treg_raptor_tree.py:143-162 | every graph node gets a position; the y of a level is `(max_level - level) * 3`, which is never negative; nodes of one level get x coordinates 4 apart; `max_level` is the top level, or 0 for an empty graph |
| TreeViz.LayoutFacts | visualize_treg_raptor_tree.py:154-162 | grouping and having placed every level together give that layout |
| TreeViz.VisualizeTreeHierarchical | visualize_treg_raptor_tree.py:85-162 | the graph of the filtered or whole tree, statistics of the whole tree, and the full layout of the graph's nodes by their level in the whole tree, as for `Layout` |
| Ranking.SortDescFacts | test_raptor_semantic_search.py:100 | the sort is descending, a permutation, and stable: the elements of one key keep their order |
| Tally.ZerosHistogram | build_treg_raptor_16x.py:426-429 | counting in-range keys onto zeroed counters gives exactly the range as keys, per-key counts, and a sum equal to the input length |
| Strings.SplitEmptyIffBlank | test_raptor_semantic_search.py:72 | splitting yields no word exactly when the text is all white space |

## Left out

- Networking: the PubMed HTTP requests, the rate-limit sleeps, timeouts and XML parsing are replaced by the `search` and `efetch` inputs. A failed request becomes `None`.
- The per-article `except: continue` around the XML fields: an element is taken as already parsed into its field texts.
- The md5-keyed JSON cache of fetched articles (build_treg_raptor_16x.py:130-137, 183-185): file I/O. The fetch is modelled as if the cache were always missed.
- `collect_treg_documents_from_pubmed`: its thread pool and its merging of the per-level results are concurrency. The article list it returns is an input to `CreateTregDocuments`, and per-level collection is modelled by `FetchLevelArticles`.
- `search_pubmed`: a network call, the `search` input.
- CorpusBuilder.CreateTregDocuments: the level-0 sub-sample is any 500 distinct level-0 documents (`IsSample`), not the exact output of `random.seed(42)` and `random.sample`.
- CorpusBuilder.AnalyzeDocumentDistribution: requires levels in 0..7, because the source raises `KeyError` for any other level; the logged percentages are left out.
- The tree builder `TrueRAPTORTree` (clustering, summarisation, clustering statistics) is not part of this model. The tree is an input to `SerializeTree` and `TreeStats`.
- Logging, the JSON file writes and report printing throughout.
- The sentence encoder and cosine similarity are the `encode` and `similarity` inputs, and the `np.load` and `np.save` embedding cache is the `cache` input, with the save left out.
- RaptorSearch.SemanticSearchEngine.SemanticSearch: `np.argsort` breaks ties in an unspecified order, so the model admits any top-k order of the similarities, not numpy's.
- RaptorSearch.SemanticSearchEngine.HybridSearch: the semantic map is that of one admissible top-100 order (`SemanticSide`), for the tie reason above; the keyword map is fixed exactly.
- TregVocab.LevelMapping: the level-specific keys are kept as data in `extras`; no modelled operation reads them.
- RaptorSearch.Fuse: the iteration order of a Python set is unspecified, so the order among equal hybrid scores is not fixed by the model.
- TregVocab.ExtractLevelKeywords: Python's iteration order over the keyword set is unspecified, so it is an input `order` that enumerates the pool. The contract holds for every such order.
- Real-valued scores are Dafny `real`s, not floats: no rounding is modelled.
- `lower()` is modelled on ASCII letters only; Unicode case folding is not modelled.
- JSON `null` and a missing key are the same `None`, so `.get(key, default)` returns the default for both. In Python a stored `null` would be returned as `None`.
- The `isinstance(result, dict)` branch of `determine_node_treg_level` is dead, since the classifier always returns an int.
- TreeViz.Layout: the levels are visited in first-appearance order, not in sorted order. Each level writes only its own nodes, so the final positions are the same.
- Drawing: root detection, figure sizing, colours, node sizes, labels, legends and the cluster-analysis and report plots of visualize_treg_raptor_tree.py.
- The report and comparison scripts (analyze_semantic_search_results.py, check_clustering_stats.py, compare_3versions_fixed.py, build_treg_raptor_tree_sample.py) and `run_comparison_test`/`main` of the search script.
- `TREG_DIFFERENTIATION_VOCAB` (enhanced_treg_vocab.py:96-299): no modelled operation reads it.
