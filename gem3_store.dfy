/** The gem3 client store: a topic graph that grows by expanding a node into
    six generated sub-topics, and the node the user selected. Expansion
    happens at most once per node, because a node that already has an
    outgoing link is left alone. */
module Gem3Store {
  import opened Values
  import opened Text

  datatype Node = Node(id: string, name: string, val: int, color: string, parent: Option<string>, desc: string)

  /** A link endpoint as the store may find it: the id it was created with, or
      the node object that the force-layout library puts in its place once it
      has processed the graph. */
  datatype Endpoint = ById(id: string) | ByObject(node: Node)

  datatype Link = Link(source: Endpoint, target: Endpoint)

  datatype Graph = Graph(nodes: seq<Node>, links: seq<Link>)

  // ---------------------------------------------------------------------------
  // The sub-topic generator

  const Topics: seq<string> := [
    "Neural Architecture", "Loss Functions", "Optimization",
    "Data Pipelines", "Inference", "Hardware Acceleration"
  ]

  /** The decimal form of a one-digit index. */
  function Digit(i: nat): string
    requires i < 10
  {
    ["0123456789"[i]]
  }

  function Desc(name: string): string {
    "Deep dive into " + name + ". Understanding this component is crucial for mastering the parent concept."
  }

  function SubTopic(topicId: string, i: nat): Node
    requires i < |Topics|
  {
    Node(topicId + "_" + Digit(i), Topics[i], 10, "#00ccff", Some(topicId), Desc(Topics[i]))
  }

  /** The six children of a topic, the i-th with id `topicId + "_" + i`. */
  function GenerateSubTopics(topicId: string): (r: seq<Node>)
    ensures |r| == |Topics| == 6
    ensures forall i :: 0 <= i < |r| ==> r[i].parent == Some(topicId) && r[i].name == Topics[i]
  {
    seq(|Topics|, i requires 0 <= i < |Topics| => SubTopic(topicId, i))
  }

  // ---------------------------------------------------------------------------
  // Expansion

  /** `l.source.id === id || l.source === id`. */
  predicate SourceIs(l: Link, id: string) {
    match l.source
    case ById(s) => s == id
    case ByObject(n) => n.id == id
  }

  /** `links.some(...)`: the node already has an outgoing link. */
  predicate IsExpanded(links: seq<Link>, id: string) {
    exists k :: 0 <= k < |links| && SourceIs(links[k], id)
  }

  function ChildLinks(id: string, children: seq<Node>): (r: seq<Link>)
    ensures |r| == |children|
    ensures forall i :: 0 <= i < |r| ==> SourceIs(r[i], id) && EndpointId(r[i].target) == children[i].id
  {
    seq(|children|, i requires 0 <= i < |children| => Link(ById(id), ById(children[i].id)))
  }

  /** The graph after `expandNode` on a node with this id. */
  function Expand(g: Graph, id: string): (r: Graph)
    ensures |r.nodes| - |g.nodes| == |r.links| - |g.links| == if IsExpanded(g.links, id) then 0 else 6
    ensures r.nodes[..|g.nodes|] == g.nodes && r.links[..|g.links|] == g.links
  {
    if IsExpanded(g.links, id) then g
    else
      var children := GenerateSubTopics(id);
      Graph(g.nodes + children, g.links + ChildLinks(id, children))
  }

  const Root := Node("root", "Artificial Intelligence", 40, "#ff0055", None,
                     "The simulation of human intelligence processes by machines.")

  // ---------------------------------------------------------------------------
  // The store

  class Store {
    var graphData: Graph
    var activeNode: Option<Node>

    /** One root node, no links, nothing selected. */
    constructor ()
      ensures graphData == Graph([Root], []) && activeNode == None
    {
      graphData := Graph([Root], []);
      activeNode := None;
    }

    method ExpandNode(node: Node)
      modifies this
      ensures graphData == Expand(old(graphData), node.id)
      ensures activeNode == old(activeNode)
    {
      var isExpanded := IsExpanded(graphData.links, node.id);
      if isExpanded {
        return;
      }
      var newNodes := GenerateSubTopics(node.id);
      var newLinks := ChildLinks(node.id, newNodes);
      graphData := Graph(graphData.nodes + newNodes, graphData.links + newLinks);
    }

    method SetActiveNode(node: Node)
      modifies this
      ensures activeNode == Some(node)
      ensures graphData == old(graphData)
    {
      activeNode := Some(node);
    }
  }

  // ---------------------------------------------------------------------------
  // Properties of the generator

  /** The generated ids are pairwise distinct and none equals the parent's. */
  lemma SubTopicIdsDistinct(topicId: string)
    ensures var r := GenerateSubTopics(topicId);
      (forall i, j :: 0 <= i < j < |r| ==> r[i].id != r[j].id)
      && (forall i :: 0 <= i < |r| ==> r[i].id != topicId)
  {
    var r := GenerateSubTopics(topicId);
    forall i, j | 0 <= i < j < |r|
      ensures r[i].id != r[j].id
    {
      var n := |topicId| + 1;
      assert r[i].id[n] == "0123456789"[i];
      assert r[j].id[n] == "0123456789"[j];
    }
    forall i | 0 <= i < |r|
      ensures r[i].id != topicId
    {
      assert |r[i].id| == |topicId| + 2;
    }
  }

  /** Each generated node is `topicId + "_" + i`, named after the i-th topic,
      with size 10, the child colour, and a description that mentions its
      name. */
  lemma SubTopicShape(topicId: string, i: nat)
    requires i < 6
    ensures var n := GenerateSubTopics(topicId)[i];
      n.id == topicId + "_" + Digit(i) && n.name == Topics[i] && n.val == 10
      && n.color == "#00ccff" && OccursAt(n.desc, n.name, 15)
  {
    var n := GenerateSubTopics(topicId)[i];
    assert n.desc[15..15 + |n.name|] == n.name;
  }

  // ---------------------------------------------------------------------------
  // Properties of the expansion guard

  /** The guard over a list of links is the guard over its two parts: links
      appended later can only make a node expanded, never undo it. */
  lemma {:induction false} IsExpandedAppend(links: seq<Link>, more: seq<Link>, id: string)
    ensures IsExpanded(links + more, id) <==> IsExpanded(links, id) || IsExpanded(more, id)
  {
    var all := links + more;
    if IsExpanded(all, id) {
      var k :| 0 <= k < |all| && SourceIs(all[k], id);
      if k < |links| {
        assert all[k] == links[k];
      } else {
        assert all[k] == more[k - |links|];
      }
    }
    if IsExpanded(links, id) {
      var k :| 0 <= k < |links| && SourceIs(links[k], id);
      assert all[k] == links[k];
    }
    if IsExpanded(more, id) {
      var k :| 0 <= k < |more| && SourceIs(more[k], id);
      assert all[|links| + k] == more[k];
    }
  }

  /** A link source the layout library has replaced by the node object it
      named, which is the same node or carries the same id. */
  predicate LaidOut(before: Endpoint, after: Endpoint) {
    after == before || (before.ById? && after.ByObject? && after.node.id == before.id)
  }

  /** Replacing link sources by their node objects, as the layout library
      does, does not change which nodes count as expanded. */
  lemma ExpandedIgnoresLayout(before: seq<Link>, after: seq<Link>, id: string)
    requires |before| == |after|
    requires forall k :: 0 <= k < |before| ==> LaidOut(before[k].source, after[k].source)
    ensures IsExpanded(before, id) <==> IsExpanded(after, id)
  {
    if IsExpanded(before, id) {
      var k :| 0 <= k < |before| && SourceIs(before[k], id);
      assert SourceIs(after[k], id);
    }
    if IsExpanded(after, id) {
      var k :| 0 <= k < |after| && SourceIs(after[k], id);
      assert SourceIs(before[k], id);
    }
  }

  // ---------------------------------------------------------------------------
  // Properties of expandNode

  /** Expanding a node that already has an outgoing link, whether stored as an
      id or as a node object, changes nothing. */
  lemma ExpandExpandedIsNoOp(g: Graph, id: string, k: nat)
    requires k < |g.links| && SourceIs(g.links[k], id)
    ensures Expand(g, id) == g
  {
  }

  /** Expanding a node without outgoing links appends its six children and
      one link to each, keeping the earlier nodes and links in front. */
  lemma ExpandAppendsChildren(g: Graph, id: string)
    requires !IsExpanded(g.links, id)
    ensures var e, n, m := Expand(g, id), |g.nodes|, |g.links|;
      |e.nodes| == n + 6 && |e.links| == m + 6
      && e.nodes[..n] == g.nodes && e.links[..m] == g.links
      && e.nodes[n..] == GenerateSubTopics(id)
      && (forall i :: 0 <= i < 6 ==> e.links[m + i] == Link(ById(id), ById(id + "_" + Digit(i))))
  {
  }

  /** After an expansion the node counts as expanded. */
  lemma ExpandMarksExpanded(g: Graph, id: string)
    ensures IsExpanded(Expand(g, id).links, id)
  {
    if !IsExpanded(g.links, id) {
      var e := Expand(g, id);
      assert SourceIs(e.links[|g.links|], id);
    }
  }

  /** Expanding the same node twice gives the graph that expanding it once
      gives. */
  lemma ExpandIdempotent(g: Graph, id: string)
    ensures Expand(Expand(g, id), id) == Expand(g, id)
  {
    ExpandMarksExpanded(g, id);
  }

  function Ids(nodes: seq<Node>): set<string> {
    set n | n in nodes :: n.id
  }

  function EndpointId(e: Endpoint): string {
    match e
    case ById(id) => id
    case ByObject(n) => n.id
  }

  /** Every link joins two nodes of the graph. */
  predicate LinksClosed(g: Graph) {
    forall l :: l in g.links ==> EndpointId(l.source) in Ids(g.nodes) && EndpointId(l.target) in Ids(g.nodes)
  }

  /** Expanding a node of the graph introduces no link with a missing
      endpoint. */
  lemma ExpandKeepsLinksClosed(g: Graph, id: string)
    requires LinksClosed(g) && id in Ids(g.nodes)
    ensures LinksClosed(Expand(g, id))
  {
    if !IsExpanded(g.links, id) {
      var e := Expand(g, id);
      var children := GenerateSubTopics(id);
      assert Ids(g.nodes) <= Ids(e.nodes) by {
        forall x | x in Ids(g.nodes)
          ensures x in Ids(e.nodes)
        {
          var n :| n in g.nodes && n.id == x;
          assert n in e.nodes;
        }
      }
      forall l | l in e.links
        ensures EndpointId(l.source) in Ids(e.nodes) && EndpointId(l.target) in Ids(e.nodes)
      {
        var k :| 0 <= k < |e.links| && e.links[k] == l;
        if k >= |g.links| {
          var i := k - |g.links|;
          assert l == Link(ById(id), ById(children[i].id));
          assert children[i] == e.nodes[|g.nodes| + i];
        } else {
          assert l in g.links;
        }
      }
    }
  }
}
