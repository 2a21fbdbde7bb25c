/** What the tree visualisation computes from a saved tree file before it draws: the
    structure statistics, the parent-to-child graph, the internal-node filter for large
    trees, the per-level layout coordinates, and the stage histogram of the nodes.
    Every record field is read with its `.get` default. */
module TreeViz {
  import opened Strings
  import opened Ranking
  import opened Tally
  import opened TregVocab
  import opened RaptorNodes

  /** `node.get('is_leaf', False)`. */
  function IsLeaf(n: StoredNode): bool { OrElse(n.isLeaf, false) }

  /** `node.get('level', 0)`. */
  function LevelOf(n: StoredNode): int { OrElse(n.level, 0) }

  /** `node.get('children', [])`. */
  function Children(n: StoredNode): seq<string> { OrElse(n.children, []) }

  // ---------------------------------------------------------------------------
  // analyze_tree_structure
  // ---------------------------------------------------------------------------

  /** `sum(1 for node in tree.values() if node.get('is_leaf', False))`. */
  function LeafCount(tree: seq<(string, StoredNode)>): nat
  {
    if tree == [] then 0 else (if IsLeaf(tree[0].1) then 1 else 0) + LeafCount(tree[1..])
  }

  /** `sum(1 for node in tree.values() if not node.get('is_leaf', False))`. */
  function InternalCount(tree: seq<(string, StoredNode)>): nat
  {
    if tree == [] then 0 else (if IsLeaf(tree[0].1) then 0 else 1) + InternalCount(tree[1..])
  }

  /** Every node is a leaf or internal, never both. */
  lemma {:induction false} LeavesAndInternal(tree: seq<(string, StoredNode)>)
    ensures LeafCount(tree) + InternalCount(tree) == |tree|
  {
    if tree != [] {
      LeavesAndInternal(tree[1..]);
    }
  }

  /** The levels of the nodes, in tree order. */
  function Levels(tree: seq<(string, StoredNode)>): (r: seq<int>)
    ensures |r| == |tree|
    ensures forall i | 0 <= i < |tree| :: r[i] == LevelOf(tree[i].1)
  {
    seq(|tree|, i requires 0 <= i < |tree| => LevelOf(tree[i].1))
  }

  /** The cluster ids of the nodes that have one, in tree order. */
  function ClusterIds(tree: seq<(string, StoredNode)>): (r: seq<int>)
    ensures |r| <= |tree|
  {
    if tree == [] then []
    else
      var c := tree[|tree| - 1].1.clusterId;
      ClusterIds(tree[..|tree| - 1]) + (if c.Some? then [c.value] else [])
  }

  /** A cluster id is listed exactly when some node carries it. */
  lemma {:induction false} ClusterIdsMember(tree: seq<(string, StoredNode)>, c: int)
    ensures c in ClusterIds(tree) <==> exists i | 0 <= i < |tree| :: tree[i].1.clusterId == Some(c)
  {
    if tree != [] {
      var front := tree[..|tree| - 1];
      ClusterIdsMember(front, c);
      assert forall i | 0 <= i < |front| :: front[i] == tree[i];
    }
  }

  datatype TreeStats = TreeStats(totalNodes: nat, leafNodes: nat, internalNodes: nat, maxDepth: int,
                                 levels: map<int, nat>, clusters: map<int, nat>)

  /** The loop of `analyze_tree_structure`: a counter per level, over all nodes, and a
      counter per cluster id, over the nodes that have one. */
  method TreeHistograms(tree: seq<(string, StoredNode)>) returns (levelCounts: map<int, nat>, clusterCounts: map<int, nat>)
    ensures levelCounts == Tally.Tally(map[], Levels(tree))
    ensures clusterCounts == Tally.Tally(map[], ClusterIds(tree))
  {
    ghost var levels := Levels(tree);
    levelCounts := map[];
    clusterCounts := map[];
    var i := 0;
    while i < |tree|
      invariant 0 <= i <= |tree|
      invariant levelCounts == Tally.Tally(map[], levels[..i])
      invariant clusterCounts == Tally.Tally(map[], ClusterIds(tree[..i]))
    {
      var node := tree[i].1;
      var level := LevelOf(node);
      assert levels[..i + 1][..i] == levels[..i];
      levelCounts := Bump(levelCounts, level);
      var clusterId := node.clusterId;
      assert tree[..i + 1][..i] == tree[..i];
      if clusterId.Some? {
        assert Tally.Tally(map[], ClusterIds(tree[..i]) + [clusterId.value]) == Bump(clusterCounts, clusterId.value) by {
          assert (ClusterIds(tree[..i]) + [clusterId.value])[..|ClusterIds(tree[..i])|] == ClusterIds(tree[..i]);
        }
        clusterCounts := Bump(clusterCounts, clusterId.value);
      } else {
        assert ClusterIds(tree[..i + 1]) == ClusterIds(tree[..i]);
      }
      i := i + 1;
    }
    assert levels[..|tree|] == levels;
    assert tree[..|tree|] == tree;
  }

  /** The level histogram has a key for each level some node has, counts each, and sums
      to the node count. */
  lemma LevelHistogram(tree: seq<(string, StoredNode)>)
    ensures forall k :: k in Tally.Tally(map[], Levels(tree)) <==> exists i | 0 <= i < |tree| :: LevelOf(tree[i].1) == k
    ensures forall k :: Get(Tally.Tally(map[], Levels(tree)), k) == Count(Levels(tree), k)
    ensures MapSum(Tally.Tally(map[], Levels(tree))) == |tree|
  {
    var levels := Levels(tree);
    Histogram(map[], levels);
    MapSumZeros(map[]);
    forall k
      ensures k in levels <==> exists i | 0 <= i < |tree| :: LevelOf(tree[i].1) == k
    {
      if k in levels {
        var i :| 0 <= i < |levels| && levels[i] == k;
      }
    }
  }

  /** The cluster histogram has a key for each cluster id some node carries, counts
      each, and sums to at most the node count. */
  lemma ClusterHistogram(tree: seq<(string, StoredNode)>)
    ensures forall c :: c in Tally.Tally(map[], ClusterIds(tree)) <==> exists i | 0 <= i < |tree| :: tree[i].1.clusterId == Some(c)
    ensures forall c :: Get(Tally.Tally(map[], ClusterIds(tree)), c) == Count(ClusterIds(tree), c)
    ensures MapSum(Tally.Tally(map[], ClusterIds(tree))) <= |tree|
  {
    var ids := ClusterIds(tree);
    var t := Tally.Tally(map[], ids);
    forall c
      ensures c in t <==> exists i | 0 <= i < |tree| :: tree[i].1.clusterId == Some(c)
    {
      TallyKeys(map[], ids);
      assert c in t <==> c in ids;
      ClusterIdsMember(tree, c);
    }
    forall c
      ensures Get(t, c) == Count(ids, c)
    {
      TallyCounts(map[], ids, c);
    }
    assert MapSum(t) <= |tree| by {
      TallySum(map[], ids);
      MapSumZeros(map[]);
    }
  }

  /** Leaves and internal nodes add up to all nodes; the depth is the largest level
      (0 for an empty tree); the level histogram counts every node once, so it sums to
      the node count; the cluster histogram counts only nodes with a cluster id, so it
      sums to at most the node count. */
  method AnalyzeTreeStructure(data: TreeData) returns (stats: TreeStats)
    ensures stats.totalNodes == |TreeNodes(data)|
    ensures stats.leafNodes + stats.internalNodes == stats.totalNodes
    ensures stats.leafNodes == LeafCount(TreeNodes(data))
    ensures TreeNodes(data) == [] ==> stats.maxDepth == 0
    ensures forall i | 0 <= i < |TreeNodes(data)| :: LevelOf(TreeNodes(data)[i].1) <= stats.maxDepth
    ensures TreeNodes(data) != [] ==> exists i | 0 <= i < |TreeNodes(data)| :: LevelOf(TreeNodes(data)[i].1) == stats.maxDepth
    ensures forall k :: k in stats.levels <==> exists i | 0 <= i < |TreeNodes(data)| :: LevelOf(TreeNodes(data)[i].1) == k
    ensures forall k :: Get(stats.levels, k) == Count(Levels(TreeNodes(data)), k)
    ensures MapSum(stats.levels) == stats.totalNodes
    ensures forall c :: c in stats.clusters <==> exists i | 0 <= i < |TreeNodes(data)| :: TreeNodes(data)[i].1.clusterId == Some(c)
    ensures forall c :: Get(stats.clusters, c) == Count(ClusterIds(TreeNodes(data)), c)
    ensures MapSum(stats.clusters) <= stats.totalNodes
  {
    var tree := TreeNodes(data);
    var levels := Levels(tree);
    LeavesAndInternal(tree);
    var maxDepth := MaxOr(levels, 0);
    assert forall i | 0 <= i < |tree| :: levels[i] in levels;
    var levelCounts, clusterCounts := TreeHistograms(tree);
    stats := TreeStats(|tree|, LeafCount(tree), InternalCount(tree), maxDepth, levelCounts, clusterCounts);
    LevelHistogram(tree);
    ClusterHistogram(tree);
  }

  // ---------------------------------------------------------------------------
  // create_tree_graph
  // ---------------------------------------------------------------------------

  /** A directed graph: its nodes in insertion order and its set of edges. */
  datatype Graph = Graph(nodes: seq<string>, edges: set<(string, string)>)

  /** `(p, c)` is an edge when `c` is a key of the tree and a child of one of the first
      `n` entries, whose key is `p`. */
  predicate EdgeBefore(tree: NodeMap, e: (string, string), n: int)
  {
    e.1 in Ids(tree) && exists k | 0 <= k < n && k < |tree| :: tree[k].0 == e.0 && e.1 in Children(tree[k].1)
  }

  /** One entry more adds the edges to its children that are keys. */
  lemma EdgeBeforeStep(tree: NodeMap, e: (string, string), n: int)
    requires 0 <= n < |tree|
    ensures EdgeBefore(tree, e, n + 1) <==>
              EdgeBefore(tree, e, n) || (e.0 == tree[n].0 && e.1 in Children(tree[n].1) && e.1 in Ids(tree))
  {
  }

  /** The nodes are the keys of the tree in order; there is an edge from a node to each
      child listed in its record that is itself a key, and no other edge, so every edge
      joins two nodes. */
  method CreateTreeGraph(data: TreeData) returns (g: Graph)
    ensures g.nodes == Ids(TreeNodes(data))
    ensures forall e :: e in g.edges <==> EdgeBefore(TreeNodes(data), e, |TreeNodes(data)|)
    ensures forall e | e in g.edges :: e.0 in g.nodes && e.1 in g.nodes
  {
    var tree := TreeNodes(data);
    var ids := Ids(tree);
    var nodes: seq<string> := [];
    var i := 0;
    while i < |tree|
      invariant 0 <= i <= |tree|
      invariant nodes == ids[..i]
    {
      nodes := nodes + [tree[i].0];
      i := i + 1;
    }
    assert nodes == ids;
    var edges: set<(string, string)> := {};
    i := 0;
    while i < |tree|
      invariant 0 <= i <= |tree|
      invariant forall e :: e in edges <==> EdgeBefore(tree, e, i)
    {
      var (nodeId, node) := tree[i];
      var children := Children(node);
      var j := 0;
      while j < |children|
        invariant 0 <= j <= |children|
        invariant forall e :: e in edges <==> EdgeBefore(tree, e, i) || (e.0 == nodeId && e.1 in children[..j] && e.1 in ids)
      {
        var childId := children[j];
        assert children[..j + 1] == children[..j] + [childId];
        if childId in ids {
          edges := edges + {(nodeId, childId)};
        }
        j := j + 1;
      }
      assert children[..|children|] == children;
      forall e
        ensures e in edges <==> EdgeBefore(tree, e, i + 1)
      {
        EdgeBeforeStep(tree, e, i);
      }
      i := i + 1;
    }
    g := Graph(nodes, edges);
    forall e | e in g.edges
      ensures e.0 in g.nodes
    {
      var k :| 0 <= k < |tree| && tree[k].0 == e.0 && e.1 in Children(tree[k].1);
      assert ids[k] == e.0;
    }
  }

  // ---------------------------------------------------------------------------
  // The internal-only filter of visualize_tree_hierarchical
  // ---------------------------------------------------------------------------

  const LargeTree: nat := 500

  /** `{k: v for k, v in tree.items() if not v.get('is_leaf', False)}`. */
  function InternalNodes(tree: seq<(string, StoredNode)>): (r: seq<(string, StoredNode)>)
    ensures forall e | e in r :: e in tree && !IsLeaf(e.1)
    ensures forall e | e in tree && !IsLeaf(e.1) :: e in r
    ensures |r| == InternalCount(tree)
  {
    if tree == [] then []
    else (if IsLeaf(tree[0].1) then [] else [tree[0]]) + InternalNodes(tree[1..])
  }

  /** Filtering keeps keys unique. */
  lemma {:induction false} InternalKeyed(tree: seq<(string, StoredNode)>)
    requires Keyed(tree)
    ensures Keyed(InternalNodes(tree))
  {
    if tree != [] {
      KeyedTail(tree);
      InternalKeyed(tree[1..]);
      if !IsLeaf(tree[0].1) {
        KeyedCons(tree[0], InternalNodes(tree[1..]));
      }
    }
  }

  /** The tree the graph is drawn from: with `internal_only` and more than 500 nodes it
      holds exactly the internal nodes, otherwise all of them. */
  function GraphTree(data: TreeData, internalOnly: bool): (r: TreeData)
    ensures internalOnly && |TreeNodes(data)| > LargeTree ==>
              forall e :: e in TreeNodes(r) <==> e in TreeNodes(data) && !IsLeaf(e.1)
    ensures !(internalOnly && |TreeNodes(data)| > LargeTree) ==>
              forall e :: e in TreeNodes(r) <==> e in TreeNodes(data)
  {
    var tree := TreeNodes(data);
    if internalOnly && |tree| > LargeTree then
      InternalKeyed(tree);
      TreeData(Some(InternalNodes(tree)))
    else data
  }

  // ---------------------------------------------------------------------------
  // determine_node_treg_level and visualize_level_distribution
  // ---------------------------------------------------------------------------

  /** The stage of a node: the classifier applied to its content, a space and its
      summary, each defaulting to "". */
  function DetermineNodeTregLevel(n: StoredNode): (r: int)
    ensures 0 <= r <= 7
  {
    DetermineTregLevel(OrElse(n.content, "") + " " + OrElse(n.summary, ""))
  }

  function NodeTregLevels(tree: seq<(string, StoredNode)>): (r: seq<int>)
    ensures |r| == |tree|
    ensures forall i | 0 <= i < |tree| :: r[i] == DetermineNodeTregLevel(tree[i].1)
  {
    seq(|tree|, i requires 0 <= i < |tree| => DetermineNodeTregLevel(tree[i].1))
  }

  /** One counter per stage 0..7, each counting the nodes of that stage; the counters
      sum to the node count. */
  method LevelDistribution(data: TreeData) returns (levelCounts: map<int, nat>)
    ensures forall k :: k in levelCounts <==> 0 <= k < 8
    ensures forall k | 0 <= k < 8 :: levelCounts[k] == Count(NodeTregLevels(TreeNodes(data)), k)
    ensures MapSum(levelCounts) == |TreeNodes(data)|
  {
    var tree := TreeNodes(data);
    ghost var levels := NodeTregLevels(tree);
    levelCounts := Zeros(8);
    var i := 0;
    while i < |tree|
      invariant 0 <= i <= |tree|
      invariant levelCounts == Tally.Tally(Zeros(8), levels[..i])
    {
      var tregLevel := DetermineNodeTregLevel(tree[i].1);
      assert levels[..i + 1][..i] == levels[..i];
      levelCounts := Bump(levelCounts, tregLevel);
      i := i + 1;
    }
    assert levels[..|tree|] == levels;
    ZerosHistogram(8, levels);
  }

  // ---------------------------------------------------------------------------
  // The layout of visualize_tree_hierarchical
  // ---------------------------------------------------------------------------

  /** A node position `(x, y)`. */
  datatype Point = Point(x: real, y: int)

  /** `(i - n / 2) * 4`, with true division. */
  function Column(i: nat, n: nat): real
  {
    ((i as real) - (n as real) / 2.0) * 4.0
  }

  /** `tree[node_id].get('level', 0)`; the graph nodes are all keys of the tree, so the
      default for a missing key is never used. */
  function NodeLevel(tree: NodeMap, id: string): int
  {
    var n := Lookup(tree, id);
    if n.Some? then LevelOf(n.value) else 0
  }

  /** The graph nodes on level `l`, in graph order. */
  function OnLevel(nodes: seq<string>, levelOf: string -> int, l: int): (r: seq<string>)
    ensures forall id | id in r :: id in nodes && levelOf(id) == l
  {
    if nodes == [] then []
    else
      var last := nodes[|nodes| - 1];
      OnLevel(nodes[..|nodes| - 1], levelOf, l) + (if levelOf(last) == l then [last] else [])
  }

  /** A level's list keeps the graph's nodes distinct. */
  lemma {:induction false} OnLevelDistinct(nodes: seq<string>, levelOf: string -> int, l: int)
    requires Distinct(nodes)
    ensures Distinct(OnLevel(nodes, levelOf, l))
  {
    if nodes != [] {
      var front := nodes[..|nodes| - 1];
      assert forall id | id in front :: id in nodes;
      assert Distinct(front);
      OnLevelDistinct(front, levelOf, l);
      var last := nodes[|nodes| - 1];
      assert last !in front;
    }
  }

  /** `level_nodes` holds, for each level met among `nodes`, the list of its nodes in
      graph order, and `levelOrder` lists those levels once each, in first-seen order
      (the dict's insertion order). */
  ghost predicate Grouped(nodes: seq<string>, levelOf: string -> int, levelNodes: map<int, seq<string>>, levelOrder: seq<int>)
  {
    Distinct(levelOrder)
    && (forall l :: l in levelNodes <==> l in levelOrder)
    && (forall l | l in levelNodes :: levelNodes[l] == OnLevel(nodes, levelOf, l) && levelNodes[l] != [])
    && (forall l | l !in levelNodes :: OnLevel(nodes, levelOf, l) == [])
  }

  /** Appending a node to the list of its level, opening the list when the level is
      new, keeps the grouping. */
  lemma GroupStep(all: seq<string>, i: nat, levelOf: string -> int, levelNodes: map<int, seq<string>>, levelOrder: seq<int>,
                  groups: map<int, seq<string>>, order: seq<int>)
    requires i < |all|
    requires Grouped(all[..i], levelOf, levelNodes, levelOrder)
    requires levelOf(all[i]) in levelNodes ==> groups == levelNodes[levelOf(all[i]) := levelNodes[levelOf(all[i])] + [all[i]]] && order == levelOrder
    requires levelOf(all[i]) !in levelNodes ==> groups == levelNodes[levelOf(all[i]) := [all[i]]] && order == levelOrder + [levelOf(all[i])]
    ensures Grouped(all[..i + 1], levelOf, groups, order)
  {
    var nodes, id := all[..i], all[i];
    var next := nodes + [id];
    assert all[..i + 1] == next;
    var l := levelOf(id);
    if l !in levelNodes {
      DistinctSnoc(levelOrder, l);
    }
    forall k
      ensures k in groups ==> groups[k] == OnLevel(next, levelOf, k) && groups[k] != []
      ensures k !in groups ==> OnLevel(next, levelOf, k) == []
    {
      OnLevelSnoc(nodes, levelOf, id, k);
    }
  }

  /** Appending a node extends the list of its own level only. */
  lemma OnLevelSnoc(nodes: seq<string>, levelOf: string -> int, id: string, k: int)
    ensures OnLevel(nodes + [id], levelOf, k) == OnLevel(nodes, levelOf, k) + (if levelOf(id) == k then [id] else [])
  {
    assert (nodes + [id])[..|nodes|] == nodes;
  }

  /** The nodes grouped by level (`level_nodes`, with its levels in first-seen order).
      Each level some node has gets the list of the nodes on it in graph order, and no
      other level has an entry. */
  method GroupByLevel(nodes: seq<string>, levelOf: string -> int) returns (levelNodes: map<int, seq<string>>, levelOrder: seq<int>)
    ensures Grouped(nodes, levelOf, levelNodes, levelOrder)
    ensures LevelKeys(nodes, levelOf, levelNodes)
    ensures forall m | 0 <= m < |levelOrder| :: levelOrder[m] in levelNodes
  {
    levelNodes := map[];
    levelOrder := [];
    var i := 0;
    while i < |nodes|
      invariant 0 <= i <= |nodes|
      invariant Grouped(nodes[..i], levelOf, levelNodes, levelOrder)
    {
      var nodeId := nodes[i];
      var level := levelOf(nodeId);
      ghost var groups, order := levelNodes, levelOrder;
      if level in levelNodes {
        levelNodes := levelNodes[level := levelNodes[level] + [nodeId]];
      } else {
        levelNodes := levelNodes[level := [nodeId]];
        levelOrder := levelOrder + [level];
      }
      GroupStep(nodes, i, levelOf, groups, order, levelNodes, levelOrder);
      i := i + 1;
    }
    assert nodes[..|nodes|] == nodes;
    GroupedLevels(nodes, levelOf, levelNodes, levelOrder);
    GroupedOrder(nodes, levelOf, levelNodes, levelOrder);
  }

  /** Each level of the order has its list. */
  lemma GroupedOrder(nodes: seq<string>, levelOf: string -> int, levelNodes: map<int, seq<string>>, levelOrder: seq<int>)
    requires Grouped(nodes, levelOf, levelNodes, levelOrder)
    ensures forall m | 0 <= m < |levelOrder| :: levelOrder[m] in levelNodes
  {
    forall m | 0 <= m < |levelOrder|
      ensures levelOrder[m] in levelNodes
    {
      var l := levelOrder[m];
      assert l in levelOrder;
      assert l in levelNodes <==> l in levelOrder;
    }
  }

  /** The grouping has a list exactly for the levels some node has. */
  lemma GroupedLevels(nodes: seq<string>, levelOf: string -> int, levelNodes: map<int, seq<string>>, levelOrder: seq<int>)
    requires Grouped(nodes, levelOf, levelNodes, levelOrder)
    ensures LevelKeys(nodes, levelOf, levelNodes)
  {
    forall l
      ensures l in levelNodes <==> exists id | id in nodes :: levelOf(id) == l
    {
      if l in levelNodes {
        assert OnLevel(nodes, levelOf, l)[0] in OnLevel(nodes, levelOf, l);
      } else {
        forall id | id in nodes
          ensures levelOf(id) != l
        {
          NodeOnLevel(nodes, levelOf, id);
        }
      }
    }
  }

  /** A graph node appears in the list of its level. */
  lemma {:induction false} NodeOnLevel(nodes: seq<string>, levelOf: string -> int, id: string)
    requires id in nodes
    ensures id in OnLevel(nodes, levelOf, levelOf(id))
  {
    var front := nodes[..|nodes| - 1];
    if id != nodes[|nodes| - 1] {
      assert id in front;
      assert forall x | x in front :: x in nodes;
      NodeOnLevel(front, levelOf, id);
    }
  }

  /** Places one level's nodes left to right at height `y`, leaving every other
      position as it was. */
  method PlaceLevel(pos: map<string, Point>, levelList: seq<string>, y: int) returns (r: map<string, Point>)
    requires Distinct(levelList)
    ensures forall id :: id in r <==> id in pos || id in levelList
    ensures forall i | 0 <= i < |levelList| :: r[levelList[i]] == Point(Column(i, |levelList|), y)
    ensures forall id | id in pos && id !in levelList :: r[id] == pos[id]
  {
    r := pos;
    var n := |levelList|;
    var i := 0;
    while i < n
      invariant 0 <= i <= n
      invariant forall id :: id in r <==> id in pos || id in levelList[..i]
      invariant forall k | 0 <= k < i :: r[levelList[k]] == Point(Column(k, n), y)
      invariant forall id | id in pos && id !in levelList[..i] :: r[id] == pos[id]
    {
      var nodeId := levelList[i];
      assert levelList[..i + 1] == levelList[..i] + [nodeId];
      assert forall k | 0 <= k < i :: levelList[k] != nodeId;
      r := r[nodeId := Point(Column(i, n), y)];
      i := i + 1;
    }
    assert levelList[..n] == levelList;
  }

  /** The `i`-th of the `n` nodes of `list`, on level `l`, sits at
      `((i - n/2)·4, (maxLevel - l)·3)`. */
  predicate LevelPlaced(pos: map<string, Point>, list: seq<string>, l: int, maxLevel: int)
  {
    forall i | 0 <= i < |list| :: list[i] in pos && pos[list[i]] == Point(Column(i, |list|), (maxLevel - l) * 3)
  }

  /** The nodes of the first `li` levels of `levelOrder`. */
  ghost function PlacedIds(levelNodes: map<int, seq<string>>, levelOrder: seq<int>, li: nat): (r: set<string>)
    requires li <= |levelOrder|
    requires forall m | 0 <= m < |levelOrder| :: levelOrder[m] in levelNodes
    ensures forall id :: id in r <==> exists m | 0 <= m < li :: id in levelNodes[levelOrder[m]]
  {
    if li == 0 then {}
    else
      var list := levelNodes[levelOrder[li - 1]];
      var r := PlacedIds(levelNodes, levelOrder, li - 1) + set id | id in list;
      assert forall id | id in list :: id in r;
      r
  }

  /** The first `li` levels of `levelOrder` are placed, and nothing else is. */
  ghost predicate PlacedUpTo(pos: map<string, Point>, levelNodes: map<int, seq<string>>, levelOrder: seq<int>, li: nat, maxLevel: int)
    requires li <= |levelOrder|
    requires forall m | 0 <= m < |levelOrder| :: levelOrder[m] in levelNodes
  {
    pos.Keys == PlacedIds(levelNodes, levelOrder, li)
    && forall m | 0 <= m < li :: LevelPlaced(pos, levelNodes[levelOrder[m]], levelOrder[m], maxLevel)
  }

  /** A placed level stays placed when only other nodes move. */
  lemma LevelKept(pos: map<string, Point>, next: map<string, Point>, list: seq<string>, l: int, maxLevel: int, moved: seq<string>)
    requires LevelPlaced(pos, list, l, maxLevel)
    requires forall i | 0 <= i < |list| :: list[i] !in moved
    requires forall id | id in pos && id !in moved :: id in next && next[id] == pos[id]
    ensures LevelPlaced(next, list, l, maxLevel)
  {
  }

  /** No node of `a` is in `b`. */
  predicate Disjoint(a: seq<string>, b: seq<string>)
  {
    forall i | 0 <= i < |a| :: a[i] !in b
  }

  /** Placing the next level leaves the levels already placed alone, since it shares no
      node with them. */
  lemma PlaceStep(levelNodes: map<int, seq<string>>, levelOrder: seq<int>,
                  li: nat, maxLevel: int, pos: map<string, Point>, next: map<string, Point>)
    requires li < |levelOrder|
    requires forall m | 0 <= m < |levelOrder| :: levelOrder[m] in levelNodes
    requires forall m | 0 <= m < li :: Disjoint(levelNodes[levelOrder[m]], levelNodes[levelOrder[li]])
    requires PlacedUpTo(pos, levelNodes, levelOrder, li, maxLevel)
    requires forall id :: id in next <==> id in pos || id in levelNodes[levelOrder[li]]
    requires LevelPlaced(next, levelNodes[levelOrder[li]], levelOrder[li], maxLevel)
    requires forall id | id in pos && id !in levelNodes[levelOrder[li]] :: next[id] == pos[id]
    ensures PlacedUpTo(next, levelNodes, levelOrder, li + 1, maxLevel)
  {
    var list := levelNodes[levelOrder[li]];
    assert next.Keys == PlacedIds(levelNodes, levelOrder, li + 1);
    forall m | 0 <= m < li + 1
      ensures LevelPlaced(next, levelNodes[levelOrder[m]], levelOrder[m], maxLevel)
    {
      if m < li {
        LevelKept(pos, next, levelNodes[levelOrder[m]], levelOrder[m], maxLevel, list);
      }
    }
  }

  /** Two levels of the grouping share no node. */
  lemma LevelsDisjoint(nodes: seq<string>, levelOf: string -> int, levelNodes: map<int, seq<string>>, levelOrder: seq<int>, m: nat, n: nat)
    requires Grouped(nodes, levelOf, levelNodes, levelOrder)
    requires m < |levelOrder| && n < |levelOrder| && m != n
    requires levelOrder[m] in levelNodes && levelOrder[n] in levelNodes
    ensures Disjoint(levelNodes[levelOrder[m]], levelNodes[levelOrder[n]])
  {
    var lm, ln := levelOrder[m], levelOrder[n];
    assert lm != ln;
    var other, list := levelNodes[lm], levelNodes[ln];
    assert other == OnLevel(nodes, levelOf, lm) && list == OnLevel(nodes, levelOf, ln);
    forall i | 0 <= i < |other|
      ensures other[i] !in list
    {
      assert levelOf(other[i]) == lm;
    }
  }

  /** Every level of `levelNodes` is placed. */
  predicate Positioned(pos: map<string, Point>, levelNodes: map<int, seq<string>>, maxLevel: int)
  {
    forall l | l in levelNodes :: LevelPlaced(pos, levelNodes[l], l, maxLevel)
  }

  /** The nodes of `list` are evenly spaced 4 apart, in list order. */
  predicate Spaced(pos: map<string, Point>, list: seq<string>)
  {
    forall i, j | 0 <= i < |list| && 0 <= j < |list| ::
      list[i] in pos && list[j] in pos && pos[list[j]].x - pos[list[i]].x == ((j - i) as real) * 4.0
  }

  lemma PlacedSpaced(pos: map<string, Point>, list: seq<string>, l: int, maxLevel: int)
    requires LevelPlaced(pos, list, l, maxLevel)
    ensures Spaced(pos, list)
  {
    forall i, j | 0 <= i < |list| && 0 <= j < |list|
      ensures pos[list[j]].x - pos[list[i]].x == ((j - i) as real) * 4.0
    {
      assert pos[list[i]] == Point(Column(i, |list|), (maxLevel - l) * 3);
      assert pos[list[j]] == Point(Column(j, |list|), (maxLevel - l) * 3);
    }
  }

  /** Once every level is placed, exactly the graph nodes have positions, each where its
      level and rank put it, none below height 0, and each level evenly spaced. */
  lemma PlacedAll(nodes: seq<string>, levelOf: string -> int, levelNodes: map<int, seq<string>>, levelOrder: seq<int>,
                  maxLevel: int, pos: map<string, Point>)
    requires Grouped(nodes, levelOf, levelNodes, levelOrder)
    requires forall m | 0 <= m < |levelOrder| :: levelOrder[m] in levelNodes
    requires forall l | l in levelOrder :: l <= maxLevel
    requires PlacedUpTo(pos, levelNodes, levelOrder, |levelOrder|, maxLevel)
    ensures Positioned(pos, levelNodes, maxLevel)
    ensures Covers(pos, nodes)
    ensures AboveGround(pos)
    ensures EvenlySpaced(pos, levelNodes)
  {
    forall l | l in levelNodes
      ensures LevelPlaced(pos, levelNodes[l], l, maxLevel)
      ensures Spaced(pos, levelNodes[l])
    {
      var m :| 0 <= m < |levelOrder| && levelOrder[m] == l;
      assert LevelPlaced(pos, levelNodes[levelOrder[m]], levelOrder[m], maxLevel);
      PlacedSpaced(pos, levelNodes[l], l, maxLevel);
    }
    forall id
      ensures id in pos <==> id in nodes
    {
      if id in pos {
        var m :| 0 <= m < |levelOrder| && id in levelNodes[levelOrder[m]];
        assert id in OnLevel(nodes, levelOf, levelOrder[m]);
      }
      if id in nodes {
        NodeOnLevel(nodes, levelOf, id);
        var l := levelOf(id);
        assert l in levelOrder;
        var m :| 0 <= m < |levelOrder| && levelOrder[m] == l;
        assert id in levelNodes[levelOrder[m]];
      }
    }
    forall id | id in pos
      ensures pos[id].y >= 0
    {
      var m :| 0 <= m < |levelOrder| && id in levelNodes[levelOrder[m]];
      var l := levelOrder[m];
      var i :| 0 <= i < |levelNodes[l]| && levelNodes[l][i] == id;
      assert LevelPlaced(pos, levelNodes[l], l, maxLevel);
      assert l in levelOrder;
    }
  }

  /** There is a list exactly for the levels some graph node has. */
  ghost predicate LevelKeys(nodes: seq<string>, levelOf: string -> int, levelNodes: map<int, seq<string>>)
  {
    forall l :: l in levelNodes <==> exists id | id in nodes :: levelOf(id) == l
  }

  /** Each level's list holds the nodes of that level in graph order. */
  predicate LevelLists(nodes: seq<string>, levelOf: string -> int, levelNodes: map<int, seq<string>>)
  {
    forall l | l in levelNodes :: levelNodes[l] == OnLevel(nodes, levelOf, l)
  }

  /** `max(level_nodes.keys())`, and 0 when there are no levels. */
  predicate TopLevel(levelNodes: map<int, seq<string>>, maxLevel: int)
  {
    (levelNodes == map[] ==> maxLevel == 0)
    && (levelNodes != map[] ==> maxLevel in levelNodes && forall l | l in levelNodes :: l <= maxLevel)
  }

  /** Exactly the graph nodes have a position. */
  ghost predicate Covers(pos: map<string, Point>, nodes: seq<string>)
  {
    forall id :: id in pos <==> id in nodes
  }

  /** No node is drawn below the bottom row. */
  predicate AboveGround(pos: map<string, Point>)
  {
    forall id | id in pos :: pos[id].y >= 0
  }

  /** Every level's nodes are evenly spaced. */
  predicate EvenlySpaced(pos: map<string, Point>, levelNodes: map<int, seq<string>>)
  {
    forall l | l in levelNodes :: Spaced(pos, levelNodes[l])
  }

  /** The finished layout: a list for exactly the levels of the graph's nodes, holding
      that level's nodes in graph order; `max_level` the largest level (0 when there are
      no nodes); exactly the graph nodes placed, the `i`-th of the `n` nodes on level `l`
      at `((i - n/2)·4, (max_level - l)·3)`, so no `y` is below 0 and the nodes of a level
      are evenly spaced 4 apart. */
  ghost predicate LaidOut(nodes: seq<string>, levelOf: string -> int, levelNodes: map<int, seq<string>>,
                          maxLevel: int, pos: map<string, Point>)
  {
    LevelKeys(nodes, levelOf, levelNodes)
    && LevelLists(nodes, levelOf, levelNodes)
    && TopLevel(levelNodes, maxLevel)
    && Covers(pos, nodes)
    && Positioned(pos, levelNodes, maxLevel)
    && AboveGround(pos)
    && EvenlySpaced(pos, levelNodes)
  }

  /** The layout loop, once every level is placed, yields `LaidOut`. */
  lemma LayoutFacts(nodes: seq<string>, levelOf: string -> int, levelNodes: map<int, seq<string>>, levelOrder: seq<int>,
                    maxLevel: int, pos: map<string, Point>)
    requires Grouped(nodes, levelOf, levelNodes, levelOrder)
    requires forall m | 0 <= m < |levelOrder| :: levelOrder[m] in levelNodes
    requires maxLevel == MaxOr(levelOrder, 0)
    requires PlacedUpTo(pos, levelNodes, levelOrder, |levelOrder|, maxLevel)
    ensures LaidOut(nodes, levelOf, levelNodes, maxLevel, pos)
  {
    GroupedLevels(nodes, levelOf, levelNodes, levelOrder);
    assert LevelLists(nodes, levelOf, levelNodes);
    GroupedTop(nodes, levelOf, levelNodes, levelOrder);
    PlacedAll(nodes, levelOf, levelNodes, levelOrder, maxLevel, pos);
  }

  /** The largest level of the order is the largest with a list. */
  lemma GroupedTop(nodes: seq<string>, levelOf: string -> int, levelNodes: map<int, seq<string>>, levelOrder: seq<int>)
    requires Grouped(nodes, levelOf, levelNodes, levelOrder)
    ensures TopLevel(levelNodes, MaxOr(levelOrder, 0))
  {
    if levelOrder != [] {
      var l := levelOrder[0];
      assert l in levelOrder;
      assert l in levelNodes <==> l in levelOrder;
    } else {
      forall l
        ensures l !in levelNodes
      {
        if l in levelNodes {
          assert false;
        }
      }
      assert levelNodes == map[];
    }
  }

  /** Every graph node gets a position: the `i`-th of the `n` nodes on level `l` sits at
      `((i - n/2)·4, (max_level - l)·3)`, where `max_level` is the largest level (0 when
      there are no nodes). So every `y` is at least 0 and nodes next to each other on a
      level are exactly 4 apart. */
  method Layout(nodes: seq<string>, levelOf: string -> int) returns (levelNodes: map<int, seq<string>>, maxLevel: int, pos: map<string, Point>)
    requires Distinct(nodes)
    ensures LaidOut(nodes, levelOf, levelNodes, maxLevel, pos)
  {
    var levelOrder;
    levelNodes, levelOrder := GroupByLevel(nodes, levelOf);
    maxLevel := MaxOr(levelOrder, 0);
    pos := map[];
    var li := 0;
    while li < |levelOrder|
      invariant 0 <= li <= |levelOrder|
      invariant PlacedUpTo(pos, levelNodes, levelOrder, li, maxLevel)
    {
      pos := PlaceNextLevel(nodes, levelOf, levelNodes, levelOrder, li, maxLevel, pos);
      li := li + 1;
    }
    LayoutFacts(nodes, levelOf, levelNodes, levelOrder, maxLevel, pos);
  }

  /** One round of the loop over the levels: the `li`-th level's nodes get their
      positions, and the levels placed before keep theirs. */
  method PlaceNextLevel(nodes: seq<string>, levelOf: string -> int, levelNodes: map<int, seq<string>>, levelOrder: seq<int>,
                        li: nat, maxLevel: int, pos: map<string, Point>) returns (next: map<string, Point>)
    requires Distinct(nodes) && Grouped(nodes, levelOf, levelNodes, levelOrder)
    requires li < |levelOrder|
    requires forall m | 0 <= m < |levelOrder| :: levelOrder[m] in levelNodes
    requires PlacedUpTo(pos, levelNodes, levelOrder, li, maxLevel)
    ensures PlacedUpTo(next, levelNodes, levelOrder, li + 1, maxLevel)
  {
    var level := levelOrder[li];
    var levelList := levelNodes[level];
    OnLevelDistinct(nodes, levelOf, level);
    next := PlaceLevel(pos, levelList, (maxLevel - level) * 3);
    forall m | 0 <= m < li
      ensures Disjoint(levelNodes[levelOrder[m]], levelList)
    {
      LevelsDisjoint(nodes, levelOf, levelNodes, levelOrder, m, li);
    }
    PlaceStep(levelNodes, levelOrder, li, maxLevel, pos, next);
  }

  /** The computations of `visualize_tree_hierarchical` before drawing: the graph of
      the (possibly filtered) tree, the statistics of the whole tree, and a position for
      each graph node. */
  method VisualizeTreeHierarchical(data: TreeData, internalOnly: bool)
    returns (g: Graph, stats: TreeStats, levelNodes: map<int, seq<string>>, maxLevel: int, pos: map<string, Point>)
    ensures g.nodes == Ids(TreeNodes(GraphTree(data, internalOnly)))
    ensures forall e :: e in g.edges <==> EdgeBefore(TreeNodes(GraphTree(data, internalOnly)), e, |TreeNodes(GraphTree(data, internalOnly))|)
    ensures forall e | e in g.edges :: e.0 in g.nodes && e.1 in g.nodes
    ensures stats.totalNodes == |TreeNodes(data)| && stats.leafNodes + stats.internalNodes == stats.totalNodes
    ensures LaidOut(g.nodes, id => NodeLevel(TreeNodes(data), id), levelNodes, maxLevel, pos)
  {
    var tree := TreeNodes(data);
    var shown := GraphTree(data, internalOnly);
    g := CreateTreeGraph(shown);
    stats := AnalyzeTreeStructure(data);
    var shownTree := TreeNodes(shown);
    forall id | id in g.nodes
      ensures id in Ids(tree)
    {
      var k :| 0 <= k < |shownTree| && Ids(shownTree)[k] == id;
      assert shownTree[k] in shownTree;
      var j :| 0 <= j < |tree| && tree[j] == shownTree[k];
      assert Ids(tree)[j] == id;
    }
    assert Distinct(g.nodes) by {
      forall a, b | 0 <= a < b < |g.nodes|
        ensures g.nodes[a] != g.nodes[b]
      {
        assert g.nodes[a] == shownTree[a].0 && g.nodes[b] == shownTree[b].0;
      }
    }
    levelNodes, maxLevel, pos := Layout(g.nodes, id => NodeLevel(tree, id));
  }
}
