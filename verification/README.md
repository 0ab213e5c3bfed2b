# Boingy graph: a verified model of the logical-flow force graph

Waltz draws the logical flows around an application as a force-directed
"boingy graph". The component's controller keeps the bound data:
- the entities, which are applications and actors
- the logical flows between them
- decorators

The controller prepares that data before every draw. Each entity gets a
`flowCount`, which is the number of flow endpoints that name it. The entities
are then ordered by that count, and the largest count bounds the opacity and
size scales. The flows are turned into links, one per ordered pair of endpoint
ids. Node and link elements are reconciled with the new data by key. Nodes can
be pinned by dragging and released by a double click. The controller can also
isolate the flows around the selected entity and draw only that sub-graph.

This project models that logic in Dafny and proves properties of it:

| module | file | what it holds |
|---|---|---|
| `Maybe` | `maybe.dfy` | `Option`, standing for JavaScript's `undefined`/`null` |
| `Refs` | `refs.dfy` | entity references, flows, and the decimal text of link keys |
| `Uniq` | `uniq.dfy` | lodash `uniqBy`: first element per key, in first-occurrence order |
| `Links` | `links.dfy` | `mkLinkData` |
| `Counting` | `counting.dfy` | the counting half of `enrichData`: `countBy` over both endpoints of every flow, and `_.max` |
| `StableOrder` | `order.dfy` | lodash `orderBy` on `flowCount`: stable, ascending, absent counts last |
| `Reconcile` | `reconcile.dfy` | d3's keyed `data(…, d => d.id)` join with enter and exit |
| `Isolation` | `isolation.dfy` | the isolated flows and entities of `vm.onIsolate` |
| `Nodes` | `nodes.dfy` | the entity objects (`class Node`) and the drag, double-click and reset handlers that write their position and pin |
| `Graph` | `graph.dfy` | `enrichData`, `draw`, and the controller (`class BoingyGraph`) with its view state and its event handlers |

Entities are objects that several parties share and write in place:
- `enrichData` stores `flowCount` on each one.
- The simulation stores `x`/`y`.
- The pin handlers store `fx`/`fy`.

So an entity is a Dafny `class Node`. The bound data, the view flags and the
rendered elements are fields of `class BoingyGraph`. Link building, counting,
ordering, deduplication, isolation filtering and the keyed join are pure
functions with lemmas.

Two conventions of the source are kept as written:
- Isolation compares entity ids only, ignoring the kind (`boingy-graph.js:446`).
  Counting and lookup use kind and id (`boingy-graph.js:305, 444`).
- Node elements are joined on the id alone (`boingy-graph.js:170`).

Some JavaScript behaviour is modelled explicitly:
- `undefined` values are `None`.
- A lookup that finds no entity leaves an `undefined` entry in the isolated
  entities. The `map` callback of `enrichData` evaluates `refToString(n)` on
  that entry before `Object.assign` is reached, and that call throws. This is
  the `Fault` value `EntityNotFound`. The entries before the missing one have
  already received their counts.
- A filter that reads `vm.selectedNode.id` while nothing is selected throws.
  This is `NoSelectedNode`.

## Model

All source paths are under `waltz-ng/client/logical-flow/components/boingy-graph/`.

| member | source | states |
|---|---|---|
| Refs.IntToStringSpec | waltz-ng/client/logical-flow/components/boingy-graph/boingy-graph.js:81 | The decimal text of an id is never empty and holds no `_`. It starts with `-` exactly when the id is negative. |
| Refs.IntToStringInjective | waltz-ng/client/logical-flow/components/boingy-graph/boingy-graph.js:81 | Different ids have different decimal texts. |
| Refs.LinkKeyInjective | waltz-ng/client/logical-flow/components/boingy-graph/boingy-graph.js:81 | Two link ids `${source.id}_${target.id}` are equal exactly when their source ids are equal and their target ids are equal. So deduplicating by id is deduplicating by ordered endpoint-id pair. |
| Uniq.UniqFromSpec | waltz-ng/client/logical-flow/components/boingy-graph/boingy-graph.js:86 | The left-to-right scan of `uniqBy` keeps only keys not yet seen, each once, and loses none of them. |
| Uniq.UniqBySpec | waltz-ng/client/logical-flow/components/boingy-graph/boingy-graph.js:86 | `uniqBy` is no longer than its input. Its keys are pairwise distinct and are exactly the input's keys. Each kept element is the first with its key, and the kept elements come in the order their keys first occur. |
| Uniq.UniqBy | waltz-ng/client/logical-flow/components/boingy-graph/boingy-graph.js:86 | lodash `uniqBy` (used at lines 86 and 450): the first element per key. Contract: see `Uniq.UniqBySpec`. |
| Links.ToLinksIndex | waltz-ng/client/logical-flow/components/boingy-graph/boingy-graph.js:79-85 | The map step gives one link per flow, at the same position. |
| Links.ToLinks | waltz-ng/client/logical-flow/components/boingy-graph/boingy-graph.js:79-85 | The map from flows to links. Contract: see `Links.ToLinksIndex`. |
| Links.MkLinkData | waltz-ng/client/logical-flow/components/boingy-graph/boingy-graph.js:78-88 | `mkLinkData`. Contract: see `Links.MkLinkDataSpec`, `Links.LinkDedupByPair` and `Links.LinkCount`. |
| Links.MkLinkDataSpec | waltz-ng/client/logical-flow/components/boingy-graph/boingy-graph.js:78-88 | Absent flows give no links. There are never more links than flows, and link ids are pairwise distinct. Every link carries one of the flows as `data`; its `source`/`target` are that flow's endpoint ids, and its id is their decimal texts joined by `_`. |
| Links.LinkDedupByPair | waltz-ng/client/logical-flow/components/boingy-graph/boingy-graph.js:78-88 | The links are exactly the first flow of each ordered endpoint-id pair, turned into links, in first-occurrence order. |
| Links.LinkCount | waltz-ng/client/logical-flow/components/boingy-graph/boingy-graph.js:78-88 | The number of links equals the number of distinct ordered endpoint-id pairs among the flows. |
| Links.LinksCoverFlows | waltz-ng/client/logical-flow/components/boingy-graph/boingy-graph.js:78-88 | Every flow's link id is the id of some link. |
| Links.LinksCarryFirstFlows | waltz-ng/client/logical-flow/components/boingy-graph/boingy-graph.js:78-88 | Each link carries the first flow with its endpoint-id pair. Links are ordered by the positions of those first flows. |
| Counting.Endpoints | waltz-ng/client/logical-flow/components/boingy-graph/boingy-graph.js:304 | `flatMap(f => [f.source, f.target])` has two entries per flow: slot 2i is flow i's source, slot 2i+1 its target. |
| Counting.CountBySpec | waltz-ng/client/logical-flow/components/boingy-graph/boingy-graph.js:303-306 | `countBy` has an entry exactly for the references that occur. Each entry is that reference's number of occurrences. |
| Counting.CountBy | waltz-ng/client/logical-flow/components/boingy-graph/boingy-graph.js:303-306 | lodash `countBy` over references. Contract: see `Counting.CountBySpec`. |
| Counting.FlowCounts | waltz-ng/client/logical-flow/components/boingy-graph/boingy-graph.js:303-306 | The `flowCounts` map of `enrichData`. Contract: see `Counting.CountBySpec` and `Counting.FlowCountIsDegree`. |
| Counting.FlowCountIsDegree | waltz-ng/client/logical-flow/components/boingy-graph/boingy-graph.js:303-315 | The `flowCount` an entity receives is the number of raw flows it is the source of plus the number it is the target of, duplicates included. An entity no flow names gets no count. |
| Counting.MaxOfSpec | waltz-ng/client/logical-flow/components/boingy-graph/boingy-graph.js:308 | `_.max` is undefined exactly for an empty list. Otherwise it bounds every count and equals one of them. |
| Counting.MaxFlowCountBounds | waltz-ng/client/logical-flow/components/boingy-graph/boingy-graph.js:308 | No reference has more flow endpoints than `maxFlowCount`. |
| Counting.MaxFlowCountSpec | waltz-ng/client/logical-flow/components/boingy-graph/boingy-graph.js:308-311 | `maxFlowCount` is undefined exactly when there are no flows. Otherwise it is at least every reference's count, and some flow endpoint reaches it. |
| Counting.MaxFlowCount | waltz-ng/client/logical-flow/components/boingy-graph/boingy-graph.js:308 | `maxFlowCount`. Contract: see `Counting.MaxFlowCountSpec`. |
| Counting.FlowCountWithinDomain | waltz-ng/client/logical-flow/components/boingy-graph/boingy-graph.js:308-315 | Every `flowCount` that is set lies in the scale domain `[1, maxFlowCount]`. |
| StableOrder.Insert | waltz-ng/client/logical-flow/components/boingy-graph/boingy-graph.js:316 | One insertion step of the stable sort adds exactly the inserted element. |
| StableOrder.OrderBySpec | waltz-ng/client/logical-flow/components/boingy-graph/boingy-graph.js:316 | `orderBy(d => d.flowCount)` is a permutation of its input. It is ascending, with absent counts last. Elements with equal counts keep their input order. |
| StableOrder.OrderBy | waltz-ng/client/logical-flow/components/boingy-graph/boingy-graph.js:316 | lodash `orderBy` on `flowCount`. Contract: see `StableOrder.OrderBySpec`. |
| StableOrder.OrderByIdempotent | waltz-ng/client/logical-flow/components/boingy-graph/boingy-graph.js:316 | Ordering an already ordered list leaves it unchanged. |
| Reconcile.Find | waltz-ng/client/logical-flow/components/boingy-graph/boingy-graph.js:94 | The element matched to a key is one that carries the key. There is no match only when no element carries it. |
| Reconcile.Without | waltz-ng/client/logical-flow/components/boingy-graph/boingy-graph.js:94 | Removing a matched key leaves elements of the pool, none with that key, with distinct identities kept distinct. |
| Reconcile.Bind | waltz-ng/client/logical-flow/components/boingy-graph/boingy-graph.js:94-110 | After binding there is one element per datum, in data order, each carrying its datum's key and value. |
| Reconcile.BindOrigins | waltz-ng/client/logical-flow/components/boingy-graph/boingy-graph.js:94-102 | A datum either takes over an existing element with its own key (update) or gets a brand-new element (enter). |
| Reconcile.JoinSpec | waltz-ng/client/logical-flow/components/boingy-graph/boingy-graph.js:91-111 | After a join the elements are one per datum, in data order, under the data's keys. They stay pairwise distinct, and each one is either an existing element with its datum's key (update) or a new element whose identity the counter hands out (enter). |
| Reconcile.Join | waltz-ng/client/logical-flow/components/boingy-graph/boingy-graph.js:91-111 | The keyed join of drawLinks and drawNodes. Contract: see `Reconcile.JoinSpec` and `Reconcile.JoinKeepsMatchedElements`. |
| Reconcile.JoinKeepsMatchedElements | waltz-ng/client/logical-flow/components/boingy-graph/boingy-graph.js:104-106 | An existing element survives a join exactly when it was the first with its key and the new data still carry that key. Every other element exits. |
| Isolation.IsolatedFlowsCount | waltz-ng/client/logical-flow/components/boingy-graph/boingy-graph.js:446-447 | The isolated flows keep every flow whose source id or target id is the selected id, as often as it occurs, and no other flow. |
| Isolation.IsolatedFlowsAppend | waltz-ng/client/logical-flow/components/boingy-graph/boingy-graph.js:447 | The filter distributes over concatenation, so kept flows stay in their original order. |
| Isolation.IsolatedFlows | waltz-ng/client/logical-flow/components/boingy-graph/boingy-graph.js:446-447 | The flow filter of `onIsolate`. Contract: see `Isolation.IsolatedFlowsCount`. |
| Isolation.EndpointRefsSpec | waltz-ng/client/logical-flow/components/boingy-graph/boingy-graph.js:448-450 | The endpoint references of the isolated flows are pairwise distinct and are exactly the ends of those flows. |
| Isolation.EndpointRefs | waltz-ng/client/logical-flow/components/boingy-graph/boingy-graph.js:448-450 | The unique endpoint references of the isolated flows. Contract: see `Isolation.EndpointRefsSpec`. |
| Isolation.EntityByRef | waltz-ng/client/logical-flow/components/boingy-graph/boingy-graph.js:444 | `keyBy` lookup is undefined exactly when no entity has the reference. Otherwise it is the last entity with that reference. |
| Isolation.IsolatedEntitiesSpec | waltz-ng/client/logical-flow/components/boingy-graph/boingy-graph.js:444-452 | Every isolated entity is found exactly when every end of every isolated flow is a known entity. A found entity is one of the graph's entities and is an end of an isolated flow. |
| Isolation.IsolatedEntitiesDistinct | waltz-ng/client/logical-flow/components/boingy-graph/boingy-graph.js:448-452 | When all are found, no entity occurs twice in the isolated view. |
| Isolation.LookupAll | waltz-ng/client/logical-flow/components/boingy-graph/boingy-graph.js:451 | The `keyBy` lookup of each reference. Contract: see `Isolation.EntityByRef`. |
| Isolation.IsolatedEntities | waltz-ng/client/logical-flow/components/boingy-graph/boingy-graph.js:444-452 | The isolated entities of `onIsolate`. Contract: see `Isolation.IsolatedEntitiesSpec`. |
| Nodes.Node.DragStarted | waltz-ng/client/logical-flow/components/boingy-graph/boingy-graph.js:143-151 | Drag start pins the node where the simulation last put it (`fx, fy := x, y`). |
| Nodes.Node.PinAt | waltz-ng/client/logical-flow/components/boingy-graph/boingy-graph.js:153-166 | Drag and drag end pin the node at the pointer, so after release the pin is the last drag point. |
| Nodes.Node.Unfix | waltz-ng/client/logical-flow/components/boingy-graph/boingy-graph.js:176 | A double click releases the pin and keeps the position. |
| Nodes.Node.Unpin | waltz-ng/client/logical-flow/components/boingy-graph/boingy-graph.js:386-389 | The node forgets its position and its pin. Nothing else about it changes. |
| Graph.FirstMissing | waltz-ng/client/logical-flow/components/boingy-graph/boingy-graph.js:315 | The map over the entities stops at the first undefined entry. Every entry before it is present. |
| Graph.AllPresent | waltz-ng/client/logical-flow/components/boingy-graph/boingy-graph.js:313-315 | The bound entities as entries are all present and give back the same objects. |
| Graph.DrawnFrom | waltz-ng/client/logical-flow/components/boingy-graph/boingy-graph.js:313-317 | The ordered entities are objects that were among the entries. |
| Graph.IsolatedEntitiesFound | waltz-ng/client/logical-flow/components/boingy-graph/boingy-graph.js:444-452 | The isolated entities are objects of the bound data. They are all found exactly when every isolated endpoint is known. |
| Graph.JoinRenders | waltz-ng/client/logical-flow/components/boingy-graph/boingy-graph.js:266-278 | Joining the link group with the links and the node group with the nodes renders exactly that data, with distinct elements. |
| Graph.NodeData | waltz-ng/client/logical-flow/components/boingy-graph/boingy-graph.js:170 | The node data keyed by id. Contract: see `Graph.JoinRenders`. |
| Graph.LinkData | waltz-ng/client/logical-flow/components/boingy-graph/boingy-graph.js:94 | The link data keyed by link id. Contract: see `Graph.JoinRenders`. |
| Graph.AssignFlowCounts | waltz-ng/client/logical-flow/components/boingy-graph/boingy-graph.js:313-315 | The in-place map gives each entry, in order, the flow count of its reference, until the first missing entry. The missing entry and all later ones keep their old count. |
| Graph.BoingyGraph.constructor | waltz-ng/client/logical-flow/components/boingy-graph/boingy-graph.js:45-50 | Zoom starts off, nothing is selected, filters are hidden and the full graph is shown. |
| Graph.BoingyGraph.OnDataChanged | waltz-ng/client/logical-flow/components/boingy-graph/boingy-graph.js:337-342 | New bound data replaces the old and requests a debounced draw. |
| Graph.BoingyGraph.EnrichData | waltz-ng/client/logical-flow/components/boingy-graph/boingy-graph.js:301-320 | The scale bound is `maxFlowCount`. Each entity gets its flow count and the result is ordered by it. On a missing entry the pass fails after the domain is set: earlier entries have their counts and later ones are untouched. |
| Graph.BoingyGraph.Draw | waltz-ng/client/logical-flow/components/boingy-graph/boingy-graph.js:258-298 | The simulation gets the nodes and `mkLinkData(flows)`. Both element groups are the keyed join of the old elements with the new data, and the rendering stays consistent. |
| Graph.BoingyGraph.EnrichBound | waltz-ng/client/logical-flow/components/boingy-graph/boingy-graph.js:301-320 | Enriching the bound data replaces only its entities, with the same objects ordered by flow count, each carrying its count. The scale bound is the max count. |
| Graph.BoingyGraph.Redraw | waltz-ng/client/logical-flow/components/boingy-graph/boingy-graph.js:331-335 | The debounced body enriches the bound data and draws it: the entities are reordered by flow count, each carries its count, the scale bound is the max count, and the simulation shows the entities and the links of the flows. Both element groups are the keyed join of the previous elements with the new data, so elements are reused by key, and the uid counters advance by the number of nodes and links. |
| Graph.BoingyGraph.FlushDraw | waltz-ng/client/logical-flow/components/boingy-graph/boingy-graph.js:331-335 | The debounced draw runs once per request, with the effect of `Redraw`: reordering, counts, scale bound, simulation data, and the keyed join of the previous elements. With nothing pending, nothing changes. |
| Graph.BoingyGraph.EnableZoom | waltz-ng/client/logical-flow/components/boingy-graph/boingy-graph.js:369-374 | Zoom becomes enabled. |
| Graph.BoingyGraph.DisableZoom | waltz-ng/client/logical-flow/components/boingy-graph/boingy-graph.js:376-382 | Zoom becomes disabled. |
| Graph.BoingyGraph.UnPinAll | waltz-ng/client/logical-flow/components/boingy-graph/boingy-graph.js:384-391 | Every bound entity loses its position and its pin, and keeps its flow count. Nothing else is written. |
| Graph.BoingyGraph.ResetSimulation | waltz-ng/client/logical-flow/components/boingy-graph/boingy-graph.js:393-404 | Every entity is unpinned, the full graph is shown again, and a debounced draw is requested. |
| Graph.BoingyGraph.OnDeselectNode | waltz-ng/client/logical-flow/components/boingy-graph/boingy-graph.js:418-420 | The selection is cleared. |
| Graph.BoingyGraph.OnHideFilters | waltz-ng/client/logical-flow/components/boingy-graph/boingy-graph.js:422-425 | Both filter flags become false. |
| Graph.BoingyGraph.OnShowFilters | waltz-ng/client/logical-flow/components/boingy-graph/boingy-graph.js:427-431 | The selection is cleared and both filter flags become true. |
| Graph.BoingyGraph.OnSelectNode | waltz-ng/client/logical-flow/components/boingy-graph/boingy-graph.js:407-416 | Clicking the selected node deselects it; clicking any other node selects it. Either way the filters are hidden. |
| Graph.BoingyGraph.OnUndoIsolate | waltz-ng/client/logical-flow/components/boingy-graph/boingy-graph.js:433-439 | The full graph is shown again. The full bound data is re-enriched and drawn at once, with the effect of `Redraw`: reordering, counts, scale bound, simulation data, and the keyed join of the previous elements. |
| Graph.BoingyGraph.EnrichAndDraw | waltz-ng/client/logical-flow/components/boingy-graph/boingy-graph.js:460-462 | The scale bound is always set from the given flows. The entries before the first missing one get their counts; every other bound entity keeps its count. It fails exactly when an entry is missing, and then the simulation and the elements stay as they were. On success the simulation shows the ordered entries and the links of the flows. Both element groups are the keyed join of the previous elements with the new data, so elements are reused by key, and the uid counters advance by the number of nodes and links. |
| Graph.BoingyGraph.IsolateSelected | waltz-ng/client/logical-flow/components/boingy-graph/boingy-graph.js:444-462 | It fails with no selection exactly when there are flows to filter; then the scale bound and every count are unchanged. It fails with a missing entity exactly when an isolated endpoint is unknown; then only the entries before the first missing one are counted. Every bound entity outside those counted entries keeps its count. On success the simulation shows the found isolated entities, ordered by their counts within the isolated flows, and the links of those flows. Both element groups are the keyed join of the previous elements with the new data, so elements are reused by key, and the uid counters advance by the number of nodes and links. On failure the simulation and the elements stay as they were. The bound entities and flows are not replaced. |
| Graph.BoingyGraph.OnIsolate | waltz-ng/client/logical-flow/components/boingy-graph/boingy-graph.js:441-463 | Isolation switches to the isolated view and unpins every bound entity, even when it then fails. It has all the outcomes of `IsolateSelected`: the two failure cases with what they leave unchanged, the counts kept outside the counted entries, and on success the isolated sub-graph drawn through the keyed join. |

## Left out

- The force simulation (`forceSimulation`, `alphaTarget`, `restart`, `stop`, tick positions) is an external physics library working in floating point. The model records only which nodes and links the simulation is given. Positions are written only by the handlers modelled in `Nodes`.
- The opacity and size scales (`scalePow`) are floating-point. Only the upper bound of their shared domain, `maxFlowCount`, is modelled (`scaleMax`).
- DOM and SVG work is left out: `setup`, labels, glyphs, hover handlers, tweakers, `ticked`, `zoomed`, the zoom transition in `resetSimulation`, `responsivefy` and `lineWithArrowPath`. `Graph.BoingyGraph.EnableZoom` and `DisableZoom` record only the flag, not the zoom behaviour attached to the SVG.
- Timing is left out. `_.debounce` and `$timeout` become a `drawPending` flag that `FlushDraw` consumes. Several requests before a flush collapse into one draw; their timing is not modelled.
- Graph.BoingyGraph.OnSelectNode: the handler runs in a `$timeout`. The model applies the deferred body directly.
- `refToString` lives in `common/entity-utils`, which is not part of this model. A reference's string is modelled as the (kind, id) reference itself, which assumes the string is injective.
- Element order in the DOM is not modelled. An element is an identity, a key and a datum; `merge` and insertion positions do not appear.
- Graph.BoingyGraph.Draw: the keyed join keeps, among the previous node elements with the same id, the first in the previous data order (`Reconcile.JoinKeepsMatchedElements`). d3 keeps the first in DOM order. The two orders drift apart: d3 inserts an entering element before the next updated one and never moves updated elements, and the source never calls `order()`. They can pick different elements only when two entities share an id but differ in kind, since node elements are joined on the id alone (`boingy-graph.js:170`). For example, draw `[F]`, then `[F, P, Q]`, then `[P, Q, F]` twice, where P is an application and Q an actor with the same id. On the last draw d3 binds P to the element created for Q and removes P's element; the model keeps P on its own element.
- Ids are modelled as mathematical integers, whereas JavaScript holds them as doubles. The decimal-text link key `${source.id}_${target.id}` (`boingy-graph.js:81`) matches JavaScript only for |id| < 2^53. Above that, distinct ids can collapse into one number, and from 1e21 up the text is in exponent form. `Refs.IntToStringInjective` and `Refs.LinkKeyInjective` describe JavaScript only for such safe ids.
- The link force resolves `source`/`target` ids to nodes and throws when an id names no node. That error is not modelled.
- `filtersEnabled` is not in the initial state (`boingy-graph.js:45-50`), so in the source it starts `undefined`. The model starts it as `false`. The two are equally falsy, and only the filter handlers ever set it.
- An unbound `vm.data` is not modelled; the bound data starts empty. In the source, `unPinAll` would fail on it.
- Decorators are carried along but never read by the drawing code. The model keeps them as opaque values. The isolated data's decorators are the bound ones: the isolation methods do not write the `decorators` field, and no isolated data record is built.
- `$onInit` and `$onDestroy` only start and stop the simulation and remove a resize listener.
