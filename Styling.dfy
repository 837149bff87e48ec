/**
 * The styling callbacks handed to the force-graph renderer.
 *
 * Every link callback decides by one membership test of the link's key in
 * the highlighted-link set; the node callback decides by the node id's
 * membership in the highlighted-node set.
 */
module Styling {
  import opened LinkKeys
  import opened Highlight

  const HighlightColor: string := "red"
  const PlainLinkColor: string := "#999"
  const PlainNodeColor: string := "gray"

  /** The text label drawn for a node and its colour. */
  datatype Sprite = Sprite(text: string, color: string)

  /** Link width: 4 for a highlighted link, 1 otherwise. */
  function LinkWidth(highlightLinks: set<string>, link: Link): (width: int)
    ensures width == 4 <==> GetLinkId(link) in highlightLinks
    ensures width == 1 <==> GetLinkId(link) !in highlightLinks
  {
    if GetLinkId(link) in highlightLinks then 4 else 1
  }

  /** Link colour: red for a highlighted link, grey `#999` otherwise. */
  function LinkColor(highlightLinks: set<string>, link: Link): (color: string)
    ensures color == HighlightColor <==> GetLinkId(link) in highlightLinks
    ensures color == PlainLinkColor <==> GetLinkId(link) !in highlightLinks
  {
    if GetLinkId(link) in highlightLinks then HighlightColor else PlainLinkColor
  }

  /** Number of particles travelling along a link: 4 when highlighted, none otherwise. */
  function LinkParticles(highlightLinks: set<string>, link: Link): (count: nat)
    ensures count == 4 <==> GetLinkId(link) in highlightLinks
    ensures count == 0 <==> GetLinkId(link) !in highlightLinks
  {
    if GetLinkId(link) in highlightLinks then 4 else 0
  }

  /** The sprite of a node: its name, red when its id is highlighted, gray otherwise. */
  function NodeSprite(highlightNodes: set<string>, node: Node): (sprite: Sprite)
    ensures sprite.text == node.name
    ensures sprite.color == HighlightColor <==> node.id in highlightNodes
    ensures sprite.color == PlainNodeColor <==> node.id !in highlightNodes
  {
    Sprite(node.name, if node.id in highlightNodes then HighlightColor else PlainNodeColor)
  }

  /** The three link styles never disagree: a link is wide, red and animated, or none of these. */
  lemma LinkStylesAgree(highlightLinks: set<string>, link: Link)
    ensures LinkWidth(highlightLinks, link) == 4 <==> LinkColor(highlightLinks, link) == HighlightColor
    ensures LinkColor(highlightLinks, link) == HighlightColor <==> LinkParticles(highlightLinks, link) == 4
  {
  }

  /** Two links with the same endpoint ids are styled alike, whatever form their endpoints have. */
  lemma LinkStyleFormIndependent(highlightLinks: set<string>, l1: Link, l2: Link)
    requires Resolve(l1.source) == Resolve(l2.source) && Resolve(l1.target) == Resolve(l2.target)
    ensures LinkWidth(highlightLinks, l1) == LinkWidth(highlightLinks, l2)
    ensures LinkColor(highlightLinks, l1) == LinkColor(highlightLinks, l2)
    ensures LinkParticles(highlightLinks, l1) == LinkParticles(highlightLinks, l2)
  {
    GetLinkIdFormIndependent(l1, l2);
  }

  /**
   * With the set derived from the graph's links and no id containing `->`,
   * a link of the graph is drawn red exactly when both its endpoints are
   * highlighted, and then the sprites of both endpoint nodes are red too.
   */
  lemma RedLinkJoinsRedNodes(highlightNodes: set<string>, links: seq<Link>, link: Link, source: Node, target: Node)
    requires link in links
    requires forall l :: l in links ==> !ContainsArrow(Resolve(l.source)) && !ContainsArrow(Resolve(l.target))
    requires source.id == Resolve(link.source) && target.id == Resolve(link.target)
    ensures LinkColor(Derive(highlightNodes, links), link) == HighlightColor <==>
              NodeSprite(highlightNodes, source).color == HighlightColor &&
              NodeSprite(highlightNodes, target).color == HighlightColor
  {
    HighlightedExactly(highlightNodes, links, link);
  }
}
