/**
 * Derivation of the highlighted-link set from the highlighted-node set.
 *
 * The component walks the link list once and adds the key of every link
 * whose two endpoints are highlighted nodes to a set built in place.
 * `Derive` is that walk as a left fold over the list; the method
 * `DeriveHighlightLinks` is the loop itself, proved to compute `Derive`.
 */
module Highlight {
  import opened LinkKeys

  /** Both endpoints of `link` resolve to highlighted node ids. */
  predicate BothHighlighted(highlight: set<string>, link: Link)
  {
    Resolve(link.source) in highlight && Resolve(link.target) in highlight
  }

  /** One iteration of the loop: add the link's key when both ends are highlighted. */
  function AddIfHighlighted(keys: set<string>, highlight: set<string>, link: Link): (keys': set<string>)
    ensures keys <= keys'
    ensures keys' - keys <= {GetLinkId(link)}
    ensures GetLinkId(link) in keys' <==> GetLinkId(link) in keys || BothHighlighted(highlight, link)
  {
    if BothHighlighted(highlight, link) then keys + {GetLinkId(link)} else keys
  }

  /** The set the loop has built after processing all of `links`, in order. */
  function Derive(highlight: set<string>, links: seq<Link>): (keys: set<string>)
    ensures |keys| <= |links|
    decreases |links|
  {
    if links == [] then {}
    else AddIfHighlighted(Derive(highlight, links[..|links| - 1]), highlight, links[|links| - 1])
  }

  /** The key of some link among `links` whose endpoints are both highlighted. */
  ghost predicate IsHighlightedKey(highlight: set<string>, links: seq<Link>, key: string)
  {
    exists i :: 0 <= i < |links| && BothHighlighted(highlight, links[i]) && GetLinkId(links[i]) == key
  }

  /**
   * A key ends up in the set exactly when some link of the list has both
   * endpoints highlighted and produces that key.
   */
  lemma {:induction false} DeriveMembers(highlight: set<string>, links: seq<Link>, key: string)
    ensures key in Derive(highlight, links) <==> IsHighlightedKey(highlight, links, key)
    decreases |links|
  {
    if links != [] {
      var n := |links| - 1;
      var init, last := links[..n], links[n];
      assert Derive(highlight, links) == AddIfHighlighted(Derive(highlight, init), highlight, last);
      DeriveMembers(highlight, init, key);
      if key in Derive(highlight, links) {
        if key in Derive(highlight, init) {
          var i :| 0 <= i < |init| && BothHighlighted(highlight, init[i]) && GetLinkId(init[i]) == key;
          assert links[i] == init[i];
        } else {
          assert BothHighlighted(highlight, links[n]) && GetLinkId(links[n]) == key;
        }
      }
      if IsHighlightedKey(highlight, links, key) {
        var i :| 0 <= i < |links| && BothHighlighted(highlight, links[i]) && GetLinkId(links[i]) == key;
        if i < n {
          assert init[i] == links[i];
          assert IsHighlightedKey(highlight, init, key);
        }
      }
    }
  }

  /** Every key in the set has the shape `sourceId->targetId` of a highlighted link. */
  lemma DeriveKeysFromHighlightedLinks(highlight: set<string>, links: seq<Link>, key: string)
    requires key in Derive(highlight, links)
    ensures exists i :: 0 <= i < |links| && BothHighlighted(highlight, links[i]) &&
                        key == LinkKey(Resolve(links[i].source), Resolve(links[i].target))
  {
    DeriveMembers(highlight, links, key);
  }

  /** The loop only adds: what the first `i` links put in the set stays after `j >= i` links. */
  lemma {:induction false} DeriveGrows(highlight: set<string>, links: seq<Link>, i: nat, j: nat)
    requires i <= j <= |links|
    ensures Derive(highlight, links[..i]) <= Derive(highlight, links[..j])
    decreases j - i
  {
    if i < j {
      DeriveGrows(highlight, links, i, j - 1);
      assert links[..j][..j - 1] == links[..j - 1];
    }
  }

  /** Before the data is loaded the link list is empty and so is the set. */
  lemma DeriveEmpty(highlight: set<string>)
    ensures Derive(highlight, []) == {}
  {
  }

  /** With no highlighted nodes no link is highlighted. */
  lemma {:induction false} DeriveNoHighlight(links: seq<Link>)
    ensures Derive({}, links) == {}
    decreases |links|
  {
    if links != [] {
      DeriveNoHighlight(links[..|links| - 1]);
    }
  }

  /** The set depends only on the resolved ids, not on the form each endpoint has. */
  lemma {:induction false} DeriveFormIndependent(highlight: set<string>, links: seq<Link>, links': seq<Link>)
    requires |links| == |links'|
    requires forall i :: 0 <= i < |links| ==>
               Resolve(links[i].source) == Resolve(links'[i].source) &&
               Resolve(links[i].target) == Resolve(links'[i].target)
    ensures Derive(highlight, links) == Derive(highlight, links')
    decreases |links|
  {
    if links != [] {
      var n := |links| - 1;
      DeriveFormIndependent(highlight, links[..n], links'[..n]);
    }
  }

  /**
   * When no endpoint id contains `->`, a link of the list has its key in the
   * set exactly when both its endpoints are highlighted: the set never
   * marks a link because another link happens to produce the same key.
   */
  lemma HighlightedExactly(highlight: set<string>, links: seq<Link>, link: Link)
    requires link in links
    requires forall l :: l in links ==> !ContainsArrow(Resolve(l.source)) && !ContainsArrow(Resolve(l.target))
    ensures GetLinkId(link) in Derive(highlight, links) <==> BothHighlighted(highlight, link)
  {
    DeriveMembers(highlight, links, GetLinkId(link));
    if GetLinkId(link) in Derive(highlight, links) {
      var i :| 0 <= i < |links| && BothHighlighted(highlight, links[i]) && GetLinkId(links[i]) == GetLinkId(link);
      GetLinkIdUnique(links[i], link);
    } else {
      var i :| 0 <= i < |links| && links[i] == link;
    }
  }

  /**
   * Without that condition the set does mark such a link: with nodes `a` and
   * `b->c` highlighted, the link `a->b` to `c` gets the key of the link `a` to
   * `b->c` and lands in the set although neither of its endpoints is highlighted.
   */
  lemma CollisionHighlightsForeignLink()
    ensures var highlight := {"a", "b->c"};
            var links := [Link(ById("a"), ById("b->c")), Link(ById("a->b"), ById("c"))];
            GetLinkId(links[1]) in Derive(highlight, links) && !BothHighlighted(highlight, links[1])
  {
    var highlight := {"a", "b->c"};
    var links := [Link(ById("a"), ById("b->c")), Link(ById("a->b"), ById("c"))];
    assert links[..1][..0] == [];
    assert links[..1] == [links[0]];
    assert GetLinkId(links[0]) in Derive(highlight, links[..1]);
    assert GetLinkId(links[1]) == GetLinkId(links[0]) by { LinkKeyCollision(); }
  }

  /**
   * The loop of the component: walk the links in order, resolve both
   * endpoints, and add `sourceId->targetId` when both are highlighted.
   */
  method DeriveHighlightLinks(highlight: set<string>, links: seq<Link>) returns (keys: set<string>)
    ensures keys == Derive(highlight, links)
    ensures forall key :: key in keys <==> IsHighlightedKey(highlight, links, key)
  {
    keys := {};
    for i := 0 to |links|
      invariant keys == Derive(highlight, links[..i])
    {
      var link := links[i];
      var sourceId := Resolve(link.source);
      var targetId := Resolve(link.target);
      if sourceId in highlight && targetId in highlight {
        keys := keys + {LinkKey(sourceId, targetId)};
      }
      assert links[..i + 1][..i] == links[..i];
    }
    assert links[..|links|] == links;
    forall key ensures key in keys <==> IsHighlightedKey(highlight, links, key) {
      DeriveMembers(highlight, links, key);
    }
  }
}
