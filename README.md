# Knowledge-graph highlighting, modelled in Dafny

The `KnowledgeGraph` React component draws a fixed set of fifteen document
nodes and twenty-three directed links as a 3D force-directed graph. Four
node ids are marked as highlighted. From them the component derives the set
of highlighted links, and it styles links and nodes by membership in these
two sets. This project models that derivation and the styling decisions.

- `LinkKeys.dfy` (module `LinkKeys`): nodes, endpoints and links. An endpoint
  is either a node id or a node object, because the renderer replaces id
  strings with node objects. `Resolve` gives the endpoint's id. `LinkKey` and
  `GetLinkId` build the directed key `sourceId->targetId`. The lemmas prove that
  the key is unique when no id contains `->`, and that it is not unique when
  an id does.
- `Highlight.dfy` (module `Highlight`): the `forEach` loop that fills the
  highlighted-link set. `DeriveHighlightLinks` is the loop itself, a method
  over a local set. `Derive` is the same walk written as a left fold, and it
  is the method's specification. The lemmas characterise the set exactly,
  prove that the loop only ever adds keys, and prove that a link's key is in
  the set exactly when both of the link's endpoints are highlighted, provided
  no id contains `->`. A concrete counterexample shows the last fact fails
  without that condition.
- `Styling.dfy` (module `Styling`): the renderer callbacks for link width,
  link colour, particle count and the node sprite, and how they relate.
- `GraphData.dfy` (module `GraphData`): the hardcoded highlighted ids, nodes
  and links, the empty state before the effect runs, and facts about the data.
  Every endpoint is a declared node. No id contains `->`. Exactly the links
  `node2->node3`, `node2->node5`, `node15->node5` and `node5->node15` are
  highlighted, and in the loaded graph a link is drawn red exactly when both
  of its end nodes are.

The comment on `getLinkId` calls the key a unique identifier for each link.
`LinkKeys.LinkKeyCollision` and `Highlight.CollisionHighlightsForeignLink`
show that this holds only while ids do not contain `->`. For example, with
nodes `a` and `b->c` highlighted, the link from `a->b` to `c` gets the same key
as the link from `a` to `b->c`. It would therefore be drawn highlighted even
though neither of its endpoints is. The hardcoded ids never contain `->`
(`GraphData.IdsArrowFree`), so the component as shipped is not affected.
The proof of `LinkKeyInjective` shows more than the comment needs: only the
source ids must be free of `->`.

## Model

| member | source | states |
|---|---|---|
| LinkKeys.Resolve | my-app/src/pages/components/KnowledgeGraph.tsx:86-89 | an id endpoint resolves to the id string itself; a node-object endpoint resolves to the node's `id` |
| LinkKeys.LinkKey | my-app/src/pages/components/KnowledgeGraph.tsx:92 | the template literal of the loop and of `getLinkId`: the key is as long as source id, `->` and target id together, and `->` sits right after the source id; `LinkKeyParts` reads the whole key back and `LinkKeyInjective` proves it unique |
| LinkKeys.LinkKeyParts | my-app/src/pages/components/KnowledgeGraph.tsx:97-103 | a key has the length of source id plus 2 plus target id, and reads back as the source id, then `->`, then the target id |
| LinkKeys.GetLinkId | my-app/src/pages/components/KnowledgeGraph.tsx:97-103 | `getLinkId`: the key of a link is built from its two resolved endpoint ids and is as long as both plus the separator; `LinkKeyParts` gives its parts, `GetLinkIdUnique` its uniqueness and `GetLinkIdFormIndependent` its independence of the endpoint form |
| LinkKeys.GetLinkIdFormIndependent | my-app/src/pages/components/KnowledgeGraph.tsx:98-101 | two links whose endpoints resolve to the same ids get the same key, whatever form each endpoint has |
| LinkKeys.LinkKeyInjective | my-app/src/pages/components/KnowledgeGraph.tsx:96-103 | when neither source id contains `->`, equal keys have equal source ids and equal target ids |
| LinkKeys.LongerSourceHasArrow | my-app/src/pages/components/KnowledgeGraph.tsx:102 | if two keys are equal and the second source id is longer, that source id contains `->` |
| LinkKeys.GetLinkIdUnique | my-app/src/pages/components/KnowledgeGraph.tsx:96-103 | when no endpoint id contains `->`, two links have equal keys if and only if they join the same source id to the same target id |
| LinkKeys.LinkKeyDirected | my-app/src/pages/components/KnowledgeGraph.tsx:97-103 | for distinct ids without `->`, the key of a link differs from the key of its reverse |
| LinkKeys.LinkKeyCollision | my-app/src/pages/components/KnowledgeGraph.tsx:96 | the id pairs (`a->b`, `c`) and (`a`, `b->c`) give the same key, so the key is not unique once ids may contain `->` |
| Highlight.BothHighlighted | my-app/src/pages/components/KnowledgeGraph.tsx:91 | the `if` test of the loop: both resolved endpoint ids are in the highlighted-node set; `AddIfHighlighted` and `HighlightedExactly` state what it decides |
| Highlight.AddIfHighlighted | my-app/src/pages/components/KnowledgeGraph.tsx:91-93 | one loop step keeps every earlier key, adds at most the link's key, and the link's key is present afterwards exactly when it was already present or both endpoints are highlighted |
| Highlight.Derive | my-app/src/pages/components/KnowledgeGraph.tsx:84-94 | the set the `forEach` builds, as a left fold over the links: it holds at most one key per link; `DeriveMembers` characterises its members both ways and `DeriveHighlightLinks` proves the loop computes it |
| Highlight.DeriveMembers | my-app/src/pages/components/KnowledgeGraph.tsx:84-94 | a key is in the derived set if and only if some link of the list has both resolved endpoints highlighted and produces that key |
| Highlight.DeriveKeysFromHighlightedLinks | my-app/src/pages/components/KnowledgeGraph.tsx:92 | every key in the set is `sourceId->targetId` for some link whose two endpoints are highlighted |
| Highlight.DeriveGrows | my-app/src/pages/components/KnowledgeGraph.tsx:84-94 | the loop never removes a key: the set after the first i links is contained in the set after the first j links, for i <= j |
| Highlight.DeriveEmpty | my-app/src/pages/components/KnowledgeGraph.tsx:24-27 | with the empty link list of the initial state the set is empty |
| Highlight.DeriveNoHighlight | my-app/src/pages/components/KnowledgeGraph.tsx:84-94 | a sanity check of the fold, not a property the component relies on: with an empty highlighted-node set no key is added (the component always highlights four ids, so this case never arises there) |
| Highlight.DeriveFormIndependent | my-app/src/pages/components/KnowledgeGraph.tsx:85-89 | the set depends only on the resolved ids of the links, not on whether an endpoint is an id or a node object |
| Highlight.HighlightedExactly | my-app/src/pages/components/KnowledgeGraph.tsx:84-103 | when no endpoint id contains `->`, a link of the list has its key in the set if and only if both its endpoints are highlighted |
| Highlight.CollisionHighlightsForeignLink | my-app/src/pages/components/KnowledgeGraph.tsx:84-103 | with ids containing `->`, a link whose endpoints are not highlighted still has its key in the set |
| Highlight.DeriveHighlightLinks | my-app/src/pages/components/KnowledgeGraph.tsx:84-94 | the loop computes the fold `Derive`, and a key is in its result if and only if some link with both endpoints highlighted produces it |
| Styling.LinkWidth | my-app/src/pages/components/KnowledgeGraph.tsx:110 | width is 4 exactly when the link's key is in the highlighted set, and 1 exactly when it is not |
| Styling.LinkColor | my-app/src/pages/components/KnowledgeGraph.tsx:111 | colour is `red` exactly when the key is in the set, and `#999` exactly when it is not |
| Styling.LinkParticles | my-app/src/pages/components/KnowledgeGraph.tsx:112-114 | 4 particles exactly when the key is in the set, and 0 exactly when it is not |
| Styling.NodeSprite | my-app/src/pages/components/KnowledgeGraph.tsx:118-123 | the sprite text is the node's name; the colour is `red` exactly when the id is highlighted and `gray` exactly when it is not |
| Styling.LinkStylesAgree | my-app/src/pages/components/KnowledgeGraph.tsx:110-114 | width 4, colour red and 4 particles always go together |
| Styling.LinkStyleFormIndependent | my-app/src/pages/components/KnowledgeGraph.tsx:110-114 | links with the same endpoint ids get the same width, colour and particle count |
| Styling.RedLinkJoinsRedNodes | my-app/src/pages/components/KnowledgeGraph.tsx:84-123 | with the set derived from the links and no id containing `->`, a link is red if and only if the sprites of both its end nodes are red |
| GraphData.NodeIdsInDeclaredIds | my-app/src/pages/components/KnowledgeGraph.tsx:34-50 | every node id is one of `node1` to `node15` |
| GraphData.DeclaredIdsHaveNodes | my-app/src/pages/components/KnowledgeGraph.tsx:34-50 | each of `node1` to `node15` is the id of some node |
| GraphData.EndpointIdsInDeclaredIds | my-app/src/pages/components/KnowledgeGraph.tsx:53-77 | every link endpoint is one of `node1` to `node15` |
| GraphData.LinkEndpointsDeclared | my-app/src/pages/components/KnowledgeGraph.tsx:34-77 | every link endpoint is the id of a declared node |
| GraphData.IdsArrowFree | my-app/src/pages/components/KnowledgeGraph.tsx:34-77 | no node id and no link endpoint id contains `->` |
| GraphData.HighlightedLinkIndices | my-app/src/pages/components/KnowledgeGraph.tsx:30-77 | both endpoints are highlighted for exactly the links at positions 1, 5, 17 and 18 |
| GraphData.HighlightedLinkKeys | my-app/src/pages/components/KnowledgeGraph.tsx:30-77 | those links have the keys `node2->node3`, `node2->node5`, `node15->node5` and `node5->node15`, and no highlighted link has another key |
| GraphData.LoadedHighlightLinks | my-app/src/pages/components/KnowledgeGraph.tsx:30-94 | once loaded, the highlighted-link set is exactly those four keys, and both directions between node5 and node15 count separately |
| GraphData.LoadedKeyIsExpected | my-app/src/pages/components/KnowledgeGraph.tsx:30-94 | every key derived from the loaded links is one of the four expected keys |
| GraphData.ExpectedKeyIsLoaded | my-app/src/pages/components/KnowledgeGraph.tsx:30-94 | each of the four expected keys is derived from the loaded links |
| GraphData.InitialHighlightLinks | my-app/src/pages/components/KnowledgeGraph.tsx:24-27 | before the effect runs, the highlighted-link set is empty |
| GraphData.LoadedLinkStyles | my-app/src/pages/components/KnowledgeGraph.tsx:30-123 | in the loaded graph a link is red if and only if both its end nodes are red, and it is wide and animated exactly when it is red |
| GraphData.LoadedLinkStylesAnyForm | my-app/src/pages/components/KnowledgeGraph.tsx:98-123 | a link whose endpoints are node objects resolving to the ids of a loaded link is styled as that link, and is red exactly when both its end nodes are red |

## Left out

- `my-app/src/pages/index.tsx` is not part of this model: it is a page that only renders the component.
- React state and effects (`useState`, `useEffect`, `useRef`) and the `dynamic` import with server rendering off: the model has the two states the component can show, the empty graph before the effect and the loaded graph after it.
- The `ForceGraph3D` renderer: force layout, 3D drawing, camera, interaction and `nodeAutoColorBy`. This is foreign library code that is not visible.
- The renderer's in-place rewriting of link endpoints from id strings into node objects: the model allows either form at every endpoint and proves that keys, the set and the styles do not depend on the form. It does not model when the rewriting happens.
- Sprite construction, `textHeight`, particle width, the constant particle colour and the floating-point particle speed `0.013`: these are rendering constants with no decision in them.
- JavaScript `Set` insertion order: the model uses a mathematical set, because the component only tests membership.
- String encoding: JavaScript strings are sequences of UTF-16 code units, while a Dafny `string` is a sequence of Unicode characters. The component only concatenates strings, compares them and looks for the ASCII separator `->`, so nothing modelled depends on the difference.
