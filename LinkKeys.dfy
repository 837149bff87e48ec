/**
 * Link endpoints and link keys of the knowledge-graph component.
 *
 * A link endpoint is either a node id or a node object (the rendering library
 * replaces the id strings by node objects once it has laid out the graph).
 * Both forms resolve to an id, and a link is keyed by the directed string
 * `sourceId->targetId`.
 */
module LinkKeys {

  /** A document node: its id and the label shown on its sprite. */
  datatype Node = Node(id: string, name: string)

  /** One end of a link: a bare node id, or the node object itself. */
  datatype Endpoint = ById(id: string) | ByNode(node: Node)

  /** A directed link between two endpoints. */
  datatype Link = Link(source: Endpoint, target: Endpoint)

  /** The separator between the two ids of a link key. */
  const Arrow: string := "->"

  /** The id an endpoint stands for, whichever form it has. */
  function Resolve(e: Endpoint): (id: string)
    ensures e.ById? ==> id == e.id
    ensures e.ByNode? ==> id == e.node.id
  {
    match e
    case ById(s) => s
    case ByNode(n) => n.id
  }

  /** The key built from two resolved ids: source, separator, target. */
  function LinkKey(sourceId: string, targetId: string): (key: string)
    ensures |key| == |sourceId| + |Arrow| + |targetId|
    ensures key[|sourceId|] == '-' && key[|sourceId| + 1] == '>'
  {
    sourceId + Arrow + targetId
  }

  /** A key reads back as the source id, then `->`, then the target id. */
  lemma LinkKeyParts(sourceId: string, targetId: string)
    ensures var key := LinkKey(sourceId, targetId);
            && |key| == |sourceId| + |Arrow| + |targetId|
            && key[..|sourceId|] == sourceId
            && key[|sourceId|..|sourceId| + |Arrow|] == Arrow
            && key[|sourceId| + |Arrow|..] == targetId
  {
  }

  /** The key of a link, from the resolved ids of its two endpoints. */
  function GetLinkId(link: Link): (key: string)
    ensures |key| == |Resolve(link.source)| + |Arrow| + |Resolve(link.target)|
  {
    LinkKey(Resolve(link.source), Resolve(link.target))
  }

  /** True when `s` contains the separator `->` somewhere. */
  predicate ContainsArrow(s: string)
  {
    exists i :: 0 <= i < |s| - 1 && s[i] == '-' && s[i + 1] == '>'
  }

  /**
   * Links whose endpoints resolve to the same ids have the same key, whether
   * an endpoint is still an id or has been replaced by its node object.
   */
  lemma GetLinkIdFormIndependent(l1: Link, l2: Link)
    requires Resolve(l1.source) == Resolve(l2.source)
    requires Resolve(l1.target) == Resolve(l2.target)
    ensures GetLinkId(l1) == GetLinkId(l2)
  {
  }

  /**
   * The key splits back into its two ids when the source id has no `->`:
   * the first `->` of the key then starts right after the source id.
   */
  lemma {:induction false} LinkKeyInjective(s1: string, t1: string, s2: string, t2: string)
    requires !ContainsArrow(s1) && !ContainsArrow(s2)
    requires LinkKey(s1, t1) == LinkKey(s2, t2)
    ensures s1 == s2 && t1 == t2
  {
    var key := LinkKey(s1, t1);
    LinkKeyParts(s1, t1);
    LinkKeyParts(s2, t2);
    if |s1| < |s2| {
      LongerSourceHasArrow(s1, t1, s2, t2);
      assert false;
    } else if |s2| < |s1| {
      LongerSourceHasArrow(s2, t2, s1, t1);
      assert false;
    } else {
      assert s1 == key[..|s1|] == s2;
      assert t1 == key[|s1| + 2..] == t2;
    }
  }

  /**
   * If two keys are equal and the second splits later, the second source id
   * swallowed the separator of the first, so it contains `->`.
   */
  lemma LongerSourceHasArrow(s1: string, t1: string, s2: string, t2: string)
    requires |s1| < |s2|
    requires LinkKey(s1, t1) == LinkKey(s2, t2)
    ensures ContainsArrow(s2)
  {
    var key := LinkKey(s1, t1);
    LinkKeyParts(s1, t1);
    LinkKeyParts(s2, t2);
    var i := |s1|;
    assert key[i] == '-' && key[i + 1] == '>';
    if |s2| == i + 1 {
      assert false;
    } else {
      assert s2[i] == key[i] && s2[i + 1] == key[i + 1];
      assert 0 <= i < |s2| - 1 && s2[i] == '-' && s2[i + 1] == '>';
    }
  }

  /**
   * When no endpoint id contains `->`, two links have the same key exactly
   * when they join the same pair of ids in the same direction.
   */
  lemma GetLinkIdUnique(l1: Link, l2: Link)
    requires !ContainsArrow(Resolve(l1.source)) && !ContainsArrow(Resolve(l2.source))
    requires !ContainsArrow(Resolve(l1.target)) && !ContainsArrow(Resolve(l2.target))
    ensures GetLinkId(l1) == GetLinkId(l2) <==>
              Resolve(l1.source) == Resolve(l2.source) && Resolve(l1.target) == Resolve(l2.target)
  {
    if GetLinkId(l1) == GetLinkId(l2) {
      LinkKeyInjective(Resolve(l1.source), Resolve(l1.target), Resolve(l2.source), Resolve(l2.target));
    }
  }

  /** The key is directed: a link and its reverse get different keys. */
  lemma LinkKeyDirected(a: string, b: string)
    requires a != b && !ContainsArrow(a) && !ContainsArrow(b)
    ensures LinkKey(a, b) != LinkKey(b, a)
  {
    if LinkKey(a, b) == LinkKey(b, a) {
      LinkKeyInjective(a, b, b, a);
    }
  }

  /** Without the `->` condition the key is not unique: two different id pairs share one key. */
  lemma LinkKeyCollision()
    ensures LinkKey("a->b", "c") == LinkKey("a", "b->c")
    ensures ContainsArrow("a->b") && ContainsArrow("b->c")
  {
    assert "a->b"[1] == '-' && "a->b"[2] == '>';
    assert "b->c"[1] == '-' && "b->c"[2] == '>';
  }
}
