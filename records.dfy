/** The saved RAPTOR tree as the search and visualisation scripts read it back: a JSON
    object whose "tree_nodes" entry maps node ids to node records. A record's keys are
    read with `.get(key, default)`, so every field may be absent. */
module RaptorNodes {
  import opened Strings

  /** One node record; `None` is an absent key or a JSON null. */
  datatype StoredNode = StoredNode(
    nodeId: Option<string>,
    parentId: Option<string>,
    children: Option<seq<string>>,
    level: Option<int>,
    content: Option<string>,
    summary: Option<string>,
    isLeaf: Option<bool>,
    clusterId: Option<int>,
    clusterSize: Option<int>,
    sourceDocuments: Option<seq<string>>)

  /** The ids of a dict's entries, in insertion order. */
  function Ids<T>(m: seq<(string, T)>): (r: seq<string>)
    ensures |r| == |m|
    ensures forall i | 0 <= i < |m| :: r[i] == m[i].0
  {
    seq(|m|, i requires 0 <= i < |m| => m[i].0)
  }

  /** Dict keys are unique. */
  predicate Keyed<T>(m: seq<(string, T)>)
  {
    forall i, j | 0 <= i < j < |m| :: m[i].0 != m[j].0
  }

  /** Dropping the first entry keeps keys unique, and no later key equals the first. */
  lemma KeyedTail<T>(m: seq<(string, T)>)
    requires Keyed(m) && m != []
    ensures Keyed(m[1..])
    ensures forall e | e in m[1..] :: e.0 != m[0].0
  {
    var rest := m[1..];
    forall a, b | 0 <= a < b < |rest|
      ensures rest[a].0 != rest[b].0
    {
      assert rest[a] == m[a + 1] && rest[b] == m[b + 1];
    }
    forall e | e in rest
      ensures e.0 != m[0].0
    {
      var k :| 0 <= k < |rest| && rest[k] == e;
      assert rest[k] == m[k + 1];
    }
  }

  /** An entry whose key is new can go in front. */
  lemma KeyedCons<T>(x: (string, T), m: seq<(string, T)>)
    requires Keyed(m)
    requires forall e | e in m :: e.0 != x.0
    ensures Keyed([x] + m)
  {
    var r := [x] + m;
    forall a, b | 0 <= a < b < |r|
      ensures r[a].0 != r[b].0
    {
      if a == 0 {
        assert r[b] == m[b - 1] && r[b] in m;
      } else {
        assert r[a] == m[a - 1] && r[b] == m[b - 1];
      }
    }
  }

  /** A Python dict of node records in insertion order. */
  type NodeMap = m: seq<(string, StoredNode)> | Keyed(m) witness []

  /** The loaded JSON file; `treeNodes` is `None` when the key is missing. */
  datatype TreeData = TreeData(treeNodes: Option<NodeMap>)

  /** `tree_data.get("tree_nodes", {})`. */
  function TreeNodes(d: TreeData): NodeMap
  {
    if d.treeNodes.Some? then d.treeNodes.value else []
  }

  /** `d.get(key, default)` on one field. */
  function OrElse<T>(o: Option<T>, default: T): (r: T)
    ensures o.None? ==> r == default
    ensures o.Some? ==> r == o.value
  {
    if o.Some? then o.value else default
  }

  /** `summary + " " + content`, both defaulting to "". */
  function NodeText(n: StoredNode): (r: string)
    ensures |r| == |OrElse(n.summary, "")| + 1 + |OrElse(n.content, "")|
  {
    OrElse(n.summary, "") + " " + OrElse(n.content, "")
  }

  /** `tree_nodes[id]` when `id in tree_nodes`. */
  function Lookup(m: NodeMap, id: string): (r: Option<StoredNode>)
    ensures r.Some? <==> id in Ids(m)
    ensures r.Some? ==> exists i | 0 <= i < |m| :: m[i] == (id, r.value)
  {
    if m == [] then None
    else if m[0].0 == id then Some(m[0].1)
    else
      var rest: NodeMap := m[1..];
      assert Ids(m) == [m[0].0] + Ids(rest);
      var r := Lookup(rest, id);
      if r.Some? then
        var i :| 0 <= i < |rest| && rest[i] == (id, r.value);
        assert m[i + 1] == rest[i];
        r
      else r
  }

  /** Looking up the id of an entry finds that entry's record. */
  lemma LookupEntry(m: NodeMap, i: int)
    requires 0 <= i < |m|
    ensures Lookup(m, m[i].0) == Some(m[i].1)
  {
    var r := Lookup(m, m[i].0);
    assert m[i].0 in Ids(m) by { assert Ids(m)[i] == m[i].0; }
    var j :| 0 <= j < |m| && m[j] == (m[i].0, r.value);
    assert j == i;
  }
}
