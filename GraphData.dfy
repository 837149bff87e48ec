/**
 * The graph the component shows once its effect has run, and the graph it
 * holds before: the hardcoded nodes, links and highlighted node ids, with
 * the facts about them that the highlighting relies on.
 */
module GraphData {
  import opened LinkKeys
  import opened Highlight
  import opened Styling

  /** The graph state handed to the renderer. */
  datatype Graph = Graph(nodes: seq<Node>, links: seq<Link>)

  /** The highlighted node ids. */
  const HighlightNodes: set<string> := {"node2", "node3", "node15", "node5"}

  /** The fifteen document nodes. */
  const Nodes: seq<Node> :=
    [
      Node("node1", "Document 1"),
      Node("node2", "Document 2"),
      Node("node3", "Document 3"),
      Node("node4", "Document 4"),
      Node("node5", "Document 5"),
      Node("node6", "Document 6"),
      Node("node7", "Document 7"),
      Node("node8", "Document 8"),
      Node("node9", "Document 9"),
      Node("node10", "Document 10"),
      Node("node11", "Document 11"),
      Node("node12", "Document 12"),
      Node("node13", "Document 13"),
      Node("node14", "Document 14"),
      Node("node15", "Document 15")
    ]

  /** The twenty-three links, given by node id. */
  const Links: seq<Link> :=
    [
      Link(ById("node1"), ById("node2")),
      Link(ById("node2"), ById("node3")),
      Link(ById("node3"), ById("node4")),
      Link(ById("node4"), ById("node5")),
      Link(ById("node5"), ById("node1")),
      Link(ById("node2"), ById("node5")),
      Link(ById("node3"), ById("node1")),
      Link(ById("node6"), ById("node7")),
      Link(ById("node7"), ById("node8")),
      Link(ById("node8"), ById("node9")),
      Link(ById("node9"), ById("node10")),
      Link(ById("node10"), ById("node6")),
      Link(ById("node11"), ById("node12")),
      Link(ById("node12"), ById("node13")),
      Link(ById("node13"), ById("node14")),
      Link(ById("node14"), ById("node15")),
      Link(ById("node15"), ById("node11")),
      Link(ById("node15"), ById("node5")),
      Link(ById("node5"), ById("node15")),
      Link(ById("node1"), ById("node6")),
      Link(ById("node2"), ById("node7")),
      Link(ById("node3"), ById("node8")),
      Link(ById("node13"), ById("node10"))
    ]

  /** The state before the effect has filled in the data. */
  const Initial: Graph := Graph([], [])

  /** The state after the effect. */
  const Loaded: Graph := Graph(Nodes, Links)

  /** The declared node ids. */
  const DeclaredIds: set<string> := {"node1", "node2", "node3", "node4", "node5", "node6", "node7", "node8", "node9", "node10", "node11", "node12", "node13", "node14", "node15"}

  /** The keys of the highlighted links of the loaded graph. */
  const LoadedHighlightKeys: set<string> := {"node2->node3", "node2->node5", "node15->node5", "node5->node15"}

  /** `id` is the id of one of `nodes`. */
  ghost predicate Declared(nodes: seq<Node>, id: string)
  {
    exists k :: 0 <= k < |nodes| && nodes[k].id == id
  }

  /** Every node id is one of `node1` to `node15`. */
  lemma NodeIdsInDeclaredIds()
    ensures forall n :: n in Nodes ==> n.id in DeclaredIds
  {
  }

  /** Every link endpoint is one of `node1` to `node15`. */
  lemma EndpointIdsInDeclaredIds()
    ensures forall l :: l in Links ==> Resolve(l.source) in DeclaredIds && Resolve(l.target) in DeclaredIds
  {
  }

  /** Each of `node1` to `node15` is the id of a node. */
  lemma DeclaredIdsHaveNodes()
    ensures forall id :: id in DeclaredIds ==> Declared(Nodes, id)
  {
    forall id | id in DeclaredIds ensures Declared(Nodes, id) {
      if id == "node1" {
        assert Nodes[0].id == id;
      } else if id == "node2" {
        assert Nodes[1].id == id;
      } else if id == "node3" {
        assert Nodes[2].id == id;
      } else if id == "node4" {
        assert Nodes[3].id == id;
      } else if id == "node5" {
        assert Nodes[4].id == id;
      } else if id == "node6" {
        assert Nodes[5].id == id;
      } else if id == "node7" {
        assert Nodes[6].id == id;
      } else if id == "node8" {
        assert Nodes[7].id == id;
      } else if id == "node9" {
        assert Nodes[8].id == id;
      } else if id == "node10" {
        assert Nodes[9].id == id;
      } else if id == "node11" {
        assert Nodes[10].id == id;
      } else if id == "node12" {
        assert Nodes[11].id == id;
      } else if id == "node13" {
        assert Nodes[12].id == id;
      } else if id == "node14" {
        assert Nodes[13].id == id;
      } else if id == "node15" {
        assert Nodes[14].id == id;
      }
    }
  }

  /** Every link joins two declared nodes. */
  lemma LinkEndpointsDeclared()
    ensures forall l :: l in Links ==> Declared(Nodes, Resolve(l.source)) && Declared(Nodes, Resolve(l.target))
  {
    EndpointIdsInDeclaredIds();
    DeclaredIdsHaveNodes();
  }

  /** No node id, and so no endpoint id, contains `->`. */
  lemma IdsArrowFree()
    ensures forall n :: n in Nodes ==> !ContainsArrow(n.id)
    ensures forall l :: l in Links ==> !ContainsArrow(Resolve(l.source)) && !ContainsArrow(Resolve(l.target))
  {
    assert forall id :: id in DeclaredIds ==> !ContainsArrow(id);
    NodeIdsInDeclaredIds();
    EndpointIdsInDeclaredIds();
  }

  /**
   * Exactly four links have both endpoints highlighted: node2 to node3,
   * node2 to node5, node15 to node5 and node5 to node15.
   */
  lemma HighlightedLinkIndices()
    ensures forall i :: 0 <= i < |Links| ==> (BothHighlighted(HighlightNodes, Links[i]) <==> i in {1, 5, 17, 18})
  {
  }

  /** The highlighted links of the loaded graph produce the four expected keys. */
  lemma HighlightedLinkKeys()
    ensures forall i :: 0 <= i < |Links| && BothHighlighted(HighlightNodes, Links[i]) ==> GetLinkId(Links[i]) in LoadedHighlightKeys
    ensures GetLinkId(Links[1]) == "node2->node3" && GetLinkId(Links[5]) == "node2->node5"
    ensures GetLinkId(Links[17]) == "node15->node5" && GetLinkId(Links[18]) == "node5->node15"
  {
    HighlightedLinkIndices();
    assert GetLinkId(Links[1]) == "node2->node3";
    assert GetLinkId(Links[5]) == "node2->node5";
    assert GetLinkId(Links[17]) == "node15->node5";
    assert GetLinkId(Links[18]) == "node5->node15";
  }

  /**
   * Once loaded, the highlighted-link set holds exactly four keys, the two
   * directions between node5 and node15 among them as distinct keys.
   */
  lemma LoadedHighlightLinks()
    ensures Derive(HighlightNodes, Loaded.links) == LoadedHighlightKeys
    ensures |Derive(HighlightNodes, Loaded.links)| == 4
  {
    forall key | key in Derive(HighlightNodes, Links) ensures key in LoadedHighlightKeys {
      LoadedKeyIsExpected(key);
    }
    forall key | key in LoadedHighlightKeys ensures key in Derive(HighlightNodes, Links) {
      ExpectedKeyIsLoaded(key);
    }
  }

  /** Every key the loaded graph derives is one of the four expected keys. */
  lemma LoadedKeyIsExpected(key: string)
    requires key in Derive(HighlightNodes, Links)
    ensures key in LoadedHighlightKeys
  {
    DeriveMembers(HighlightNodes, Links, key);
    HighlightedLinkKeys();
  }

  /** Each of the four expected keys is derived from the loaded graph. */
  lemma ExpectedKeyIsLoaded(key: string)
    requires key in LoadedHighlightKeys
    ensures key in Derive(HighlightNodes, Links)
  {
    HighlightedLinkIndices();
    HighlightedLinkKeys();
    var i := if key == "node2->node3" then 1 else if key == "node2->node5" then 5
             else if key == "node15->node5" then 17 else 18;
    assert BothHighlighted(HighlightNodes, Links[i]) && GetLinkId(Links[i]) == key;
    DeriveMembers(HighlightNodes, Links, key);
  }

  /** Before loading nothing is highlighted. */
  lemma InitialHighlightLinks()
    ensures Derive(HighlightNodes, Initial.links) == {}
  {
    DeriveEmpty(HighlightNodes);
  }

  /**
   * In the loaded graph a link is drawn red, wide and animated exactly when
   * both its endpoint nodes are drawn red.
   */
  lemma LoadedLinkStyles(link: Link, source: Node, target: Node)
    requires link in Links && source in Nodes && target in Nodes
    requires source.id == Resolve(link.source) && target.id == Resolve(link.target)
    ensures LinkColor(Derive(HighlightNodes, Links), link) == HighlightColor <==>
              NodeSprite(HighlightNodes, source).color == HighlightColor &&
              NodeSprite(HighlightNodes, target).color == HighlightColor
    ensures LinkWidth(Derive(HighlightNodes, Links), link) == 4 <==>
              LinkColor(Derive(HighlightNodes, Links), link) == HighlightColor
    ensures LinkParticles(Derive(HighlightNodes, Links), link) == 4 <==>
              LinkColor(Derive(HighlightNodes, Links), link) == HighlightColor
  {
    IdsArrowFree();
    RedLinkJoinsRedNodes(HighlightNodes, Links, link, source, target);
  }

  /**
   * The same holds after the renderer has replaced endpoint ids by node
   * objects: any link whose endpoints resolve to the ids of a loaded link is
   * styled as that link and is red exactly when both its end nodes are red.
   */
  lemma LoadedLinkStylesAnyForm(link: Link, k: nat, source: Node, target: Node)
    requires k < |Links| && source in Nodes && target in Nodes
    requires Resolve(link.source) == Resolve(Links[k].source) && Resolve(link.target) == Resolve(Links[k].target)
    requires source.id == Resolve(link.source) && target.id == Resolve(link.target)
    ensures LinkColor(Derive(HighlightNodes, Links), link) == HighlightColor <==>
              NodeSprite(HighlightNodes, source).color == HighlightColor &&
              NodeSprite(HighlightNodes, target).color == HighlightColor
    ensures LinkWidth(Derive(HighlightNodes, Links), link) == LinkWidth(Derive(HighlightNodes, Links), Links[k])
    ensures LinkParticles(Derive(HighlightNodes, Links), link) == LinkParticles(Derive(HighlightNodes, Links), Links[k])
  {
    LoadedLinkStyles(Links[k], source, target);
    LinkStyleFormIndependent(Derive(HighlightNodes, Links), link, Links[k]);
  }
}
