/** The galaxy-codex client store: the focused node id and the topic graph
    (`nodes`, `links`), with the actions `setActiveNode`, `expandNode`,
    `fetchNodeContent` and `handleLinkClick`.

    Each action is a method of `Store`; what it does to the store is given by a
    step function on values (`FetchStep`, `LinkClickStep`), and the properties
    the store promises are lemmas about those functions. The request to the
    expand endpoint is not performed: the caller supplies its outcome, and the
    methods return the topic they would have put in the request URL. */
module CodexStore {
  import opened Values
  import opened Text

  /** A topic node as the store keeps it. `category`, `content`, `parent` and
      `summary` are properties that a node may not have at all. */
  datatype Node = Node(
    id: string,
    name: string,
    val: int,
    color: string,
    category: Slot<string>,
    content: Slot<string>,
    parent: Slot<string>,
    summary: Slot<string>)

  datatype Link = Link(source: string, target: string)

  datatype Graph = Graph(nodes: seq<Node>, links: seq<Link>)

  /** What the request to the expand endpoint gave: the `content` and
      `category` of the decoded body, or a failure (a network error, a status
      that is not ok, or a body that is not JSON). */
  datatype FetchOutcome = Fetched(content: Slot<string>, category: Slot<string>) | FetchFailed

  // ---------------------------------------------------------------------------
  // Initial state

  const RootId := "Artificial Intelligence"

  const RootContent :=
    "\n# Artificial Intelligence\n\n"
    + "Artificial Intelligence (AI) is the simulation of human intelligence processes by computer systems. "
    + "These processes include learning (the acquisition of information and rules for using the information), "
    + "reasoning (using rules to reach approximate or definite conclusions), and self-correction.\n\n"
    + "## Key Concepts\n\n"
    + "At the heart of AI lies [[Machine Learning]], which enables systems to learn from data. "
    + "More advanced forms include [[Deep Learning]] and [[Neural Networks]], which mimic the human brain's structure.\n\n"
    + "AI is often categorized into [[Narrow AI]] (designed for specific tasks) and [[General AI]] "
    + "(hypothetical systems with human-level cognition).\n\n"
    + "## Applications\n\n"
    + "AI is transforming fields such as [[Natural Language Processing]], [[Computer Vision]], and [[Robotics]].\n        "

  const RootNode := Node(RootId, RootId, 80, "#00ffff", Defined("Core AI"), Defined(RootContent), Undefined, Undefined)

  const InitialGraph := Graph([RootNode], [])

  // ---------------------------------------------------------------------------
  // Lookup

  /** `Array.prototype.find`: the index of the first node that satisfies `p`. */
  function Find(nodes: seq<Node>, p: Node -> bool): (r: Option<nat>)
    ensures r.Some? ==> r.value < |nodes| && p(nodes[r.value])
    ensures r.Some? ==> forall j :: 0 <= j < r.value ==> !p(nodes[j])
    ensures r.None? ==> forall j :: 0 <= j < |nodes| ==> !p(nodes[j])
  {
    if nodes == [] then None
    else if p(nodes[0]) then Some(0)
    else match Find(nodes[1..], p)
      case None => None
      case Some(i) => Some(i + 1)
  }

  /** The test `n => n.id === id`. */
  function IdIs(id: string): Node -> bool {
    (n: Node) => n.id == id
  }

  /** The test `n => n.name.toLowerCase() === term.toLowerCase()`. */
  function NameMatches(term: string): Node -> bool {
    (n: Node) => SameIgnoringCase(n.name, term)
  }

  function Ids(nodes: seq<Node>): set<string> {
    set n | n in nodes :: n.id
  }

  function Names(nodes: seq<Node>): set<string> {
    set n | n in nodes :: n.name
  }

  /** Every link joins two nodes of the graph. */
  predicate LinksClosed(g: Graph) {
    forall l :: l in g.links ==> l.source in Ids(g.nodes) && l.target in Ids(g.nodes)
  }

  /** `node && node.content`: a node counts as having content only when its
      content is a non-empty string. */
  predicate HasContent(n: Node) {
    Truthy(n.content)
  }

  // ---------------------------------------------------------------------------
  // fetchNodeContent

  /** The nodes after a successful fetch for `id`: every node with that id gets
      the fetched content and category, and its summary becomes `null`. */
  function WithContent(nodes: seq<Node>, id: string, content: Slot<string>, category: Slot<string>): (r: seq<Node>)
    ensures |r| == |nodes|
    ensures forall k :: 0 <= k < |r| ==> r[k].id == nodes[k].id && r[k].name == nodes[k].name
    ensures forall k :: 0 <= k < |r| && nodes[k].id != id ==> r[k] == nodes[k]
    ensures forall k :: 0 <= k < |r| && nodes[k].id == id ==> (HasContent(r[k]) <==> Truthy(content))
  {
    seq(|nodes|, i requires 0 <= i < |nodes| =>
      if nodes[i].id == id then nodes[i].(content := content, category := category, summary := Null)
      else nodes[i])
  }

  /** The graph after a fetch with the given outcome. */
  function ApplyOutcome(g: Graph, id: string, outcome: FetchOutcome): Graph {
    match outcome
    case FetchFailed => g
    case Fetched(content, category) => g.(nodes := WithContent(g.nodes, id, content, category))
  }

  /** The effect of one `fetchNodeContent` call: the new graph and the topic of
      the request it sends (`None` when it sends none). */
  datatype FetchResult = FetchResult(graph: Graph, request: Option<string>)

  function FetchStep(g: Graph, nodeId: string, topicName: Slot<string>, outcome: FetchOutcome): (r: FetchResult)
    ensures |r.graph.nodes| == |g.nodes| && r.graph.links == g.links
    ensures r.request.None? ==> r.graph == g
    ensures r.request.Some? ==>
              if Truthy(topicName) then r.request.value == topicName.value else r.request.value in Names(g.nodes)
  {
    var found := Find(g.nodes, IdIs(nodeId));
    if found.Some? && HasContent(g.nodes[found.value]) then
      FetchResult(g, None)
    else if Truthy(topicName) then
      FetchResult(ApplyOutcome(g, nodeId, outcome), Some(topicName.value))
    else if found.Some? then
      FetchResult(ApplyOutcome(g, nodeId, outcome), Some(g.nodes[found.value].name))
    else
      // `node.name` of a missing node throws inside the `try`; the error is
      // only logged
      FetchResult(g, None)
  }

  // ---------------------------------------------------------------------------
  // handleLinkClick

  /** The id of the node that a click on `term` under `parent` creates: each
      run of white space in the term becomes one underscore. */
  function NewNodeId(parent: string, term: string): (r: string)
    ensures |r| > |parent| && r[..|parent| + 1] == parent + "_"
    ensures |r| <= |parent| + 1 + |term|
  {
    parent + "_" + ReplaceSpaceRuns(term)
  }

  function NewNode(parent: string, term: string): Node {
    Node(NewNodeId(parent, term), term, 20, "#aaddff", Undefined, Undefined, Defined(parent), Undefined)
  }

  /** The effect of one `handleLinkClick` call: the new graph, the focused
      node id and the topic of the request it sends. */
  datatype ClickResult = ClickResult(graph: Graph, active: string, request: Option<string>)

  function LinkClickStep(g: Graph, term: string, parent: string, outcome: FetchOutcome): (r: ClickResult)
    ensures r.graph.links == g.links || r.graph.links == g.links + [Link(parent, r.active)]
    ensures r.request.Some? ==> r.active == NewNodeId(parent, term) && |r.graph.nodes| == |g.nodes| + 1
  {
    var existing := Find(g.nodes, NameMatches(term));
    if existing.Some? then
      ClickResult(g, g.nodes[existing.value].id, None)
    else
      var id := NewNodeId(parent, term);
      var added := Graph(g.nodes + [NewNode(parent, term)], g.links + [Link(parent, id)]);
      var fetched := FetchStep(added, id, Defined(term), outcome);
      ClickResult(fetched.graph, id, fetched.request)
  }

  // ---------------------------------------------------------------------------
  // The store

  class Store {
    var activeNode: string
    var graphData: Graph

    /** The store starts focused on the root topic, which already has content. */
    constructor ()
      ensures activeNode == RootId && graphData == InitialGraph
      ensures |graphData.nodes| == 1 && HasContent(graphData.nodes[0]) && graphData.links == []
    {
      activeNode := RootId;
      graphData := InitialGraph;
    }

    method SetActiveNode(nodeId: string)
      modifies this
      ensures activeNode == nodeId
      ensures graphData == old(graphData)
    {
      activeNode := nodeId;
    }

    /** Kept by the source for callers that still invoke it; it does nothing. */
    method ExpandNode(nodeId: string)
      ensures activeNode == old(activeNode) && graphData == old(graphData)
    {
    }

    method FetchNodeContent(nodeId: string, topicName: Slot<string>, outcome: FetchOutcome)
      returns (request: Option<string>)
      modifies this
      ensures FetchResult(graphData, request) == FetchStep(old(graphData), nodeId, topicName, outcome)
      ensures activeNode == old(activeNode)
    {
      var found := Find(graphData.nodes, IdIs(nodeId));
      if found.Some? && HasContent(graphData.nodes[found.value]) {
        return None;
      }
      if Truthy(topicName) {
        request := Some(topicName.value);
      } else if found.Some? {
        request := Some(graphData.nodes[found.value].name);
      } else {
        return None;
      }
      match outcome {
        case FetchFailed =>
        case Fetched(content, category) =>
          graphData := graphData.(nodes := WithContent(graphData.nodes, nodeId, content, category));
      }
    }

    method HandleLinkClick(term: string, parentNodeId: string, outcome: FetchOutcome)
      returns (request: Option<string>)
      modifies this
      ensures ClickResult(graphData, activeNode, request)
           == LinkClickStep(old(graphData), term, parentNodeId, outcome)
    {
      var existing := Find(graphData.nodes, NameMatches(term));
      if existing.Some? {
        SetActiveNode(graphData.nodes[existing.value].id);
        return None;
      }
      var newNodeId := NewNodeId(parentNodeId, term);
      var newNode := NewNode(parentNodeId, term);
      var newLink := Link(parentNodeId, newNodeId);
      graphData := Graph(graphData.nodes + [newNode], graphData.links + [newLink]);
      activeNode := newNodeId;
      request := FetchNodeContent(newNodeId, Defined(term), outcome);
    }
  }

  // ---------------------------------------------------------------------------
  // Properties of fetchNodeContent

  /** A fetch changes at most the content, category and summary of the nodes
      with the requested id, and only when a request is sent and succeeds. */
  lemma FetchChangesOnlyMatchingNodes(g: Graph, nodeId: string, topicName: Slot<string>, outcome: FetchOutcome)
    ensures var r := FetchStep(g, nodeId, topicName, outcome);
      |r.graph.nodes| == |g.nodes| && r.graph.links == g.links
      && (forall k :: 0 <= k < |g.nodes| && g.nodes[k].id != nodeId ==> r.graph.nodes[k] == g.nodes[k])
      && (r.request.None? || outcome.FetchFailed? ==> r.graph == g)
      && (r.request.Some? && outcome.Fetched? ==>
            forall k :: 0 <= k < |g.nodes| && g.nodes[k].id == nodeId ==>
              r.graph.nodes[k] == g.nodes[k].(content := outcome.content, category := outcome.category, summary := Null))
  {
  }

  /** A request is sent exactly when the node is not found with content and
      there is a topic to ask for: a truthy `topicName`, or else the name of
      the node that was found. An empty content string counts as no content. */
  lemma FetchRequestsIff(g: Graph, nodeId: string, topicName: Slot<string>, outcome: FetchOutcome)
    ensures var r := FetchStep(g, nodeId, topicName, outcome);
      r.request.Some? <==>
        (forall k :: 0 <= k < |g.nodes| && g.nodes[k].id == nodeId ==>
           !HasContent(g.nodes[k]) || exists j :: 0 <= j < k && g.nodes[j].id == nodeId)
        && (Truthy(topicName) || exists k :: 0 <= k < |g.nodes| && g.nodes[k].id == nodeId)
    ensures var r := FetchStep(g, nodeId, topicName, outcome);
      r.request.Some? ==>
        r.request.value == (if Truthy(topicName) then topicName.value
                            else g.nodes[Find(g.nodes, IdIs(nodeId)).value].name)
  {
    var found := Find(g.nodes, IdIs(nodeId));
    if found.Some? {
      var i := found.value;
      assert g.nodes[i].id == nodeId;
    }
  }

  /** A node that already has content is left alone and no request is sent. */
  lemma FetchSkipsNodeWithContent(g: Graph, i: nat, topicName: Slot<string>, outcome: FetchOutcome)
    requires i < |g.nodes| && HasContent(g.nodes[i])
    requires forall j :: 0 <= j < i ==> g.nodes[j].id != g.nodes[i].id
    ensures FetchStep(g, g.nodes[i].id, topicName, outcome) == FetchResult(g, None)
  {
  }

  /** A failed request leaves the graph as it was. */
  lemma FetchFailureChangesNothing(g: Graph, nodeId: string, topicName: Slot<string>)
    ensures FetchStep(g, nodeId, topicName, FetchFailed).graph == g
  {
  }

  /** An id that no node has leaves the graph as it was, whatever the outcome. */
  lemma FetchUnknownIdChangesNothing(g: Graph, nodeId: string, topicName: Slot<string>, outcome: FetchOutcome)
    requires forall k :: 0 <= k < |g.nodes| ==> g.nodes[k].id != nodeId
    ensures FetchStep(g, nodeId, topicName, outcome).graph == g
  {
    if outcome.Fetched? {
      assert WithContent(g.nodes, nodeId, outcome.content, outcome.category) == g.nodes;
    }
  }

  lemma WithContentKeepsIds(nodes: seq<Node>, id: string, content: Slot<string>, category: Slot<string>)
    ensures Ids(WithContent(nodes, id, content, category)) == Ids(nodes)
  {
    var m := WithContent(nodes, id, content, category);
    forall x | x in Ids(m)
      ensures x in Ids(nodes)
    {
      var n :| n in m && n.id == x;
      var k :| 0 <= k < |m| && m[k] == n;
      assert nodes[k].id == x;
    }
    forall x | x in Ids(nodes)
      ensures x in Ids(m)
    {
      var n :| n in nodes && n.id == x;
      var k :| 0 <= k < |nodes| && nodes[k] == n;
      assert m[k].id == x && m[k] in m;
    }
  }

  /** A fetch never adds, removes or renames a node. */
  lemma FetchKeepsIds(g: Graph, nodeId: string, topicName: Slot<string>, outcome: FetchOutcome)
    ensures Ids(FetchStep(g, nodeId, topicName, outcome).graph.nodes) == Ids(g.nodes)
  {
    if outcome.Fetched? {
      WithContentKeepsIds(g.nodes, nodeId, outcome.content, outcome.category);
    }
  }

  // ---------------------------------------------------------------------------
  // Properties of handleLinkClick

  /** A term that some node already carries, ignoring case, only moves the
      focus to the first such node: no node, no link, no request. */
  lemma LinkClickExistingTerm(g: Graph, term: string, parent: string, outcome: FetchOutcome, i: nat)
    requires i < |g.nodes| && SameIgnoringCase(g.nodes[i].name, term)
    requires forall j :: 0 <= j < i ==> !SameIgnoringCase(g.nodes[j].name, term)
    ensures LinkClickStep(g, term, parent, outcome) == ClickResult(g, g.nodes[i].id, None)
  {
    var existing := Find(g.nodes, NameMatches(term));
    assert existing == Some(i);
  }

  /** A new term appends one node and one link from the parent and focuses
      the new node. Every earlier node whose id differs from the new id is
      kept in place. The nested fetch looks the new id up from the front: when
      an older node already has that id and content, no request is sent;
      otherwise the request is for the term, or for the older node's name
      when the term is empty. */
  lemma LinkClickNewTerm(g: Graph, term: string, parent: string, outcome: FetchOutcome)
    requires forall j :: 0 <= j < |g.nodes| ==> !SameIgnoringCase(g.nodes[j].name, term)
    ensures var r, id, n := LinkClickStep(g, term, parent, outcome), NewNodeId(parent, term), |g.nodes|;
      |r.graph.nodes| == n + 1
      && r.graph.links == g.links + [Link(parent, id)]
      && r.active == id
      && r.graph.nodes[n].id == id && r.graph.nodes[n].name == term && r.graph.nodes[n].val == 20
      && r.graph.nodes[n].color == "#aaddff" && r.graph.nodes[n].parent == Defined(parent)
      && (forall k :: 0 <= k < n && g.nodes[k].id != id ==> r.graph.nodes[k] == g.nodes[k])
    ensures var r, f := LinkClickStep(g, term, parent, outcome), Find(g.nodes, IdIs(NewNodeId(parent, term)));
      r.request == if f.Some? && HasContent(g.nodes[f.value]) then None
                   else if term == "" && f.Some? then Some(g.nodes[f.value].name)
                   else Some(term)
  {
    var id := NewNodeId(parent, term);
    var added := Graph(g.nodes + [NewNode(parent, term)], g.links + [Link(parent, id)]);
    FetchChangesOnlyMatchingNodes(added, id, Defined(term), outcome);
    assert added.nodes[|g.nodes|] == NewNode(parent, term);
    FindAppend(g.nodes, NewNode(parent, term), IdIs(id));
  }

  /** `find` over a list with one more element at the end finds what it found
      before, or else the new element if it passes. */
  lemma FindAppend(nodes: seq<Node>, x: Node, p: Node -> bool)
    ensures Find(nodes + [x], p) == if Find(nodes, p).Some? then Find(nodes, p)
                                    else if p(x) then Some(|nodes|) else None
  {
    assert forall j :: 0 <= j < |nodes| ==> (nodes + [x])[j] == nodes[j];
    assert (nodes + [x])[|nodes|] == x;
  }

  /** When the new id is fresh, the earlier nodes are exactly kept, the request
      is for the term itself, and the new node is the last one, with the
      fetched content when the request succeeds. */
  lemma LinkClickFreshId(g: Graph, term: string, parent: string, outcome: FetchOutcome)
    requires forall j :: 0 <= j < |g.nodes| ==> !SameIgnoringCase(g.nodes[j].name, term)
    requires NewNodeId(parent, term) !in Ids(g.nodes)
    ensures var r := LinkClickStep(g, term, parent, outcome);
      r.request == Some(term)
      && r.graph.nodes == g.nodes + [match outcome
           case FetchFailed => NewNode(parent, term)
           case Fetched(c, cat) => NewNode(parent, term).(content := c, category := cat, summary := Null)]
  {
    var id := NewNodeId(parent, term);
    var added := Graph(g.nodes + [NewNode(parent, term)], g.links + [Link(parent, id)]);
    forall k | 0 <= k < |g.nodes|
      ensures g.nodes[k].id != id
    {
      assert g.nodes[k] in g.nodes;
    }
    assert IdIs(id)(added.nodes[|g.nodes|]);
    forall k | 0 <= k < |g.nodes|
      ensures !IdIs(id)(added.nodes[k])
    {
      assert added.nodes[k] == g.nodes[k];
    }
    var found := Find(added.nodes, IdIs(id));
    assert found == Some(|g.nodes|);
  }

  /** Each click adds at most one node and one link, and never removes one. */
  lemma LinkClickGrowsByAtMostOne(g: Graph, term: string, parent: string, outcome: FetchOutcome)
    ensures var r := LinkClickStep(g, term, parent, outcome);
      |g.nodes| <= |r.graph.nodes| <= |g.nodes| + 1
      && |g.links| <= |r.graph.links| <= |g.links| + 1
      && r.graph.links[..|g.links|] == g.links
  {
    var id := NewNodeId(parent, term);
    var added := Graph(g.nodes + [NewNode(parent, term)], g.links + [Link(parent, id)]);
    FetchChangesOnlyMatchingNodes(added, id, Defined(term), outcome);
  }

  /** A click under a parent that is a node of the graph introduces no link
      with a missing endpoint. */
  lemma LinkClickKeepsLinksClosed(g: Graph, term: string, parent: string, outcome: FetchOutcome)
    requires LinksClosed(g) && parent in Ids(g.nodes)
    ensures LinksClosed(LinkClickStep(g, term, parent, outcome).graph)
  {
    var existing := Find(g.nodes, NameMatches(term));
    if existing.None? {
      var id := NewNodeId(parent, term);
      var nn := NewNode(parent, term);
      var added := Graph(g.nodes + [nn], g.links + [Link(parent, id)]);
      assert Ids(added.nodes) == Ids(g.nodes) + {id} by {
        forall x | x in Ids(added.nodes)
          ensures x in Ids(g.nodes) + {id}
        {
          var n :| n in added.nodes && n.id == x;
          assert n in g.nodes || n == nn;
        }
        assert nn in added.nodes;
        forall x | x in Ids(g.nodes)
          ensures x in Ids(added.nodes)
        {
          var n :| n in g.nodes && n.id == x;
          assert n in added.nodes;
        }
      }
      FetchKeepsIds(added, id, Defined(term), outcome);
      FetchChangesOnlyMatchingNodes(added, id, Defined(term), outcome);
    }
  }

  /** The part of the new id after the parent's prefix holds no white space
      and keeps every other character of the term in order; a term without
      white space is used as it is. */
  lemma NewNodeIdSuffix(parent: string, term: string)
    ensures var id := NewNodeId(parent, term);
      |id| > |parent| && id[..|parent| + 1] == parent + "_"
      && NoSpace(id[|parent| + 1..])
      && IsSubsequence(NonSpaces(term), id[|parent| + 1..])
      && (NoSpace(term) ==> id[|parent| + 1..] == term)
  {
    var id := NewNodeId(parent, term);
    assert id[|parent| + 1..] == ReplaceSpaceRuns(term);
    assert id[..|parent| + 1] == parent + "_";
    ReplaceSpaceRunsHasNoSpace(term);
    ReplaceSpaceRunsKeepsNonSpaces(term);
    if NoSpace(term) {
      ReplaceSpaceRunsIdentity(term);
    }
  }

  /** Two terms that differ only in the length of a white-space run produce
      the same id under the same parent although neither name matches the
      other, so a second node with an existing id can be appended. */
  lemma LinkClickCanDuplicateId()
    ensures var g := Graph([Node("p_a_b", "a b", 20, "#aaddff", Undefined, Undefined, Defined("p"), Undefined)], []);
      var r := LinkClickStep(g, "a  b", "p", FetchFailed);
      |r.graph.nodes| == 2 && r.graph.nodes[0].id == r.graph.nodes[1].id
  {
    var g := Graph([Node("p_a_b", "a b", 20, "#aaddff", Undefined, Undefined, Defined("p"), Undefined)], []);
    assert Lower("a b") != Lower("a  b");
    assert ReplaceSpaceRuns("a  b") == "a_b" by {
      assert ReplaceSpaceRuns("b") == "b";
      assert "  b"[1..] == " b";
      assert LeadingSpaces(" b") == 1;
      assert TrimStart(" b") == "b";
      assert ReplaceSpaceRuns("  b") == "_b";
      assert "a  b"[1..] == "  b";
    }
  }
}
