/**
 * The boingy graph controller: the view state it keeps, the enrichment of
 * the bound data before each draw, the keyed redraw of nodes and links, and
 * the isolation of the flows around one selected entity.
 */
module Graph {
  import opened Maybe
  import opened Refs
  import opened Links
  import opened Counting
  import opened StableOrder
  import opened Reconcile
  import opened Nodes
  import opened Isolation

  /** A decorator record, passed along with the data and never read by the graph. */
  type Decorator = Details

  /** Why an isolation stops part way with an error. */
  datatype Fault =
    | NoSelectedNode   // there are flows to filter but no entity is selected
    | EntityNotFound   // an end of an isolated flow is none of the graph's entities

  /** The sort key enrichData uses: the flow count an entity receives, absent counts last. */
  function ByFlowCount(flows: seq<Flow>): Node -> Count {
    (n: Node) => FlowCount(flows, n.Ref())
  }

  /** The index of the first absent entry, or the length when every entry is present. */
  function FirstMissing(es: seq<Option<Node>>): (m: nat)
    ensures m <= |es|
    ensures forall i :: 0 <= i < m ==> es[i].Some?
    ensures m < |es| ==> es[m].None?
  {
    if es == [] || es[0].None? then 0 else 1 + FirstMissing(es[1..])
  }

  /** The objects of the entries before the first absent one: those a failed or complete pass has counted. */
  ghost function CountedPrefix(es: seq<Option<Node>>): set<Node> {
    set k | 0 <= k < FirstMissing(es) :: es[k].value
  }

  /** Every one of the entities has no position and no pin. */
  ghost predicate AllUnpinned(ns: seq<Node>)
    reads Objects(ns)`x, Objects(ns)`y, Objects(ns)`fx, Objects(ns)`fy
  {
    forall n :: n in ns ==> n.x == None && n.y == None && n.fx == None && n.fy == None
  }

  function Present(ns: seq<Node>): seq<Option<Node>> {
    seq(|ns|, i requires 0 <= i < |ns| => Some(ns[i]))
  }

  /** Every entry is present. */
  predicate AllFound(es: seq<Option<Node>>) {
    forall i :: 0 <= i < |es| ==> es[i].Some?
  }

  function Values(es: seq<Option<Node>>): seq<Node>
    requires AllFound(es)
  {
    seq(|es|, i requires 0 <= i < |es| => es[i].value)
  }

  /** The objects in a list of entities. */
  ghost function Objects(ns: seq<Node>): set<Node> {
    set n | n in ns
  }

  /** The objects among the entries. */
  ghost function NodesOf(es: seq<Option<Node>>): set<Node> {
    set i | 0 <= i < |es| && es[i].Some? :: es[i].value
  }

  /** Entries made from a list of entities are all present and give back that list. */
  lemma AllPresent(ns: seq<Node>)
    ensures FirstMissing(Present(ns)) == |ns|
    ensures Values(Present(ns)) == ns
    ensures NodesOf(Present(ns)) == Objects(ns)
  {
    var es := Present(ns);
    forall n | n in ns ensures n in NodesOf(es) {
      var i :| 0 <= i < |ns| && ns[i] == n;
      assert es[i].value == n;
    }
  }

  /** Ordering the present entries yields only objects found among them. */
  lemma DrawnFrom(es: seq<Option<Node>>, fs: seq<Flow>)
    requires forall i :: 0 <= i < |es| ==> es[i].Some?
    ensures forall j :: 0 <= j < |OrderBy(Values(es), ByFlowCount(fs))| ==> OrderBy(Values(es), ByFlowCount(fs))[j] in NodesOf(es)
  {
    var vs := Values(es);
    var sorted := OrderBy(vs, ByFlowCount(fs));
    OrderBySpec(vs, ByFlowCount(fs));
    forall j | 0 <= j < |sorted| ensures sorted[j] in NodesOf(es) {
      assert sorted[j] in multiset(vs);
      var k :| 0 <= k < |vs| && vs[k] == sorted[j];
      assert es[k].value == sorted[j];
    }
  }

  /**
   * The entities of an isolated view are objects of the graph, and they are
   * all found exactly when every end of an isolated flow is known.
   */
  lemma IsolatedEntitiesFound(entities: seq<Node>, isolated: seq<Flow>)
    ensures NodesOf(IsolatedEntities(entities, isolated)) <= Objects(entities)
    ensures AllFound(IsolatedEntities(entities, isolated)) <==> forall r :: IsEndpoint(isolated, r) ==> Known(entities, r)
  {
    IsolatedEntitiesSpec(entities, isolated);
  }

  /** The keyed data the node group is joined with: each entity under its id. */
  function NodeData(nodes: seq<Node>): seq<(int, Node)> {
    seq(|nodes|, i requires 0 <= i < |nodes| => (nodes[i].id, nodes[i]))
  }

  /** The keyed data the link group is joined with: each link under its id. */
  function LinkData(links: seq<Link>): seq<(string, Link)> {
    seq(|links|, i requires 0 <= i < |links| => (links[i].id, links[i]))
  }

  /**
   * What the screen holds after a draw: one node element per simulation node
   * and one link element per simulation link, in the same order and under the
   * same keys, with distinct uids below each group's uid counter.
   */
  ghost predicate Rendered(nodes: seq<Node>, links: seq<Link>, nodeElements: seq<Element<int, Node>>,
                           linkElements: seq<Element<string, Link>>, nextNodeUid: nat, nextLinkUid: nat)
  {
    && |nodeElements| == |nodes|
    && (forall i :: 0 <= i < |nodes| ==> nodeElements[i].key == nodes[i].id && nodeElements[i].datum == nodes[i])
    && |linkElements| == |links|
    && (forall i :: 0 <= i < |links| ==> linkElements[i].key == links[i].id && linkElements[i].datum == links[i])
    && DistinctUids(nodeElements) && UidsBelow(nodeElements, nextNodeUid)
    && DistinctUids(linkElements) && UidsBelow(linkElements, nextLinkUid)
  }

  /** Joining each group with new data renders that data. */
  lemma JoinRenders(nodes: seq<Node>, links: seq<Link>, nodeElements: seq<Element<int, Node>>,
                    linkElements: seq<Element<string, Link>>, nextNodeUid: nat, nextLinkUid: nat)
    requires DistinctUids(nodeElements) && UidsBelow(nodeElements, nextNodeUid)
    requires DistinctUids(linkElements) && UidsBelow(linkElements, nextLinkUid)
    ensures Rendered(nodes, links, Join(nodeElements, NodeData(nodes), nextNodeUid), Join(linkElements, LinkData(links), nextLinkUid),
                     nextNodeUid + |nodes|, nextLinkUid + |links|)
  {
    JoinSpec(nodeElements, NodeData(nodes), nextNodeUid);
    JoinSpec(linkElements, LinkData(links), nextLinkUid);
  }

  /**
   * The map step of enrichData: each entry in turn gets the flow count of
   * its reference, until the first absent entry, where the step fails.
   * Returns how many entries were annotated.
   */
  method AssignFlowCounts(es: seq<Option<Node>>, fs: seq<Flow>) returns (done: nat)
    modifies NodesOf(es)`flowCount
    ensures done == FirstMissing(es)
    ensures forall i :: 0 <= i < done ==> es[i].value.flowCount == FlowCount(fs, es[i].value.Ref())
    ensures forall n :: n in NodesOf(es) && (forall k :: 0 <= k < done ==> es[k].value != n) ==>
              n.flowCount == old(n.flowCount)
  {
    var counts := FlowCounts(fs);
    done := 0;
    while done < |es| && es[done].Some?
      invariant done <= |es|
      invariant forall k :: 0 <= k < done ==> es[k].Some?
      invariant forall k :: 0 <= k < done ==> es[k].value.flowCount == FlowCount(fs, es[k].value.Ref())
      invariant forall n :: n in NodesOf(es) && (forall k :: 0 <= k < done ==> es[k].value != n) ==>
                  n.flowCount == old(n.flowCount)
    {
      var n := es[done].value;
      n.flowCount := CountOf(counts, n.Ref());
      done := done + 1;
    }
  }

  class BoingyGraph {
    /** The bound data: entities, flows and decorators. */
    var entities: seq<Node>
    var flows: seq<Flow>
    var decorators: seq<Decorator>

    /** The view state the template reads. */
    var zoomEnabled: bool
    var selectedNode: Node?
    var showFilters: bool
    var filtersEnabled: bool
    var showIsolated: bool

    /** A debounced draw of the bound data has been requested and has not yet run. */
    var drawPending: bool

    /** Upper end of the domain [1, max] shared by the opacity and node size scales; absent when there were no flows. */
    var scaleMax: Option<nat>

    /** The nodes and links the simulation was last given. */
    var simNodes: seq<Node>
    var simLinks: seq<Link>

    /** The rendered node and link elements, in the order of the data last bound to them. */
    var nodeElements: seq<Element<int, Node>>
    var linkElements: seq<Element<string, Link>>

    /** Every node element and every link element ever created has a uid below these. */
    var nextNodeUid: nat
    var nextLinkUid: nat

    /** The rendered elements carry the simulation's nodes and links, one element each, all distinct. */
    ghost predicate Valid()
      reads this`simNodes, this`simLinks, this`nodeElements, this`linkElements, this`nextNodeUid, this`nextLinkUid
    {
      Rendered(simNodes, simLinks, nodeElements, linkElements, nextNodeUid, nextLinkUid)
    }

    /**
     * The element groups are the keyed join of the given earlier groups with
     * the simulation's nodes and links: an element whose key is still present
     * is kept, and each uid counter has moved on by one per datum.
     */
    ghost predicate JoinedFrom(prevNodes: seq<Element<int, Node>>, prevLinks: seq<Element<string, Link>>,
                               prevNextNode: nat, prevNextLink: nat)
      reads this`simNodes, this`simLinks, this`nodeElements, this`linkElements, this`nextNodeUid, this`nextLinkUid
    {
      && nodeElements == Join(prevNodes, NodeData(simNodes), prevNextNode)
      && linkElements == Join(prevLinks, LinkData(simLinks), prevNextLink)
      && nextNodeUid == prevNextNode + |simNodes|
      && nextLinkUid == prevNextLink + |simLinks|
    }

    /** The simulation and the rendered elements are as they were. */
    ghost predicate SameDrawing(prevNodes: seq<Node>, prevLinks: seq<Link>,
                                prevNodeElements: seq<Element<int, Node>>, prevLinkElements: seq<Element<string, Link>>,
                                prevNextNode: nat, prevNextLink: nat)
      reads this`simNodes, this`simLinks, this`nodeElements, this`linkElements, this`nextNodeUid, this`nextLinkUid
    {
      && simNodes == prevNodes && simLinks == prevLinks
      && nodeElements == prevNodeElements && linkElements == prevLinkElements
      && nextNodeUid == prevNextNode && nextLinkUid == prevNextLink
    }

    /** The controller starts with zoom off, nothing selected, filters hidden and the full graph shown. */
    constructor ()
      ensures Valid()
      ensures !zoomEnabled && selectedNode == null && !showFilters && !filtersEnabled && !showIsolated
      ensures entities == [] && flows == [] && decorators == []
      ensures !drawPending && simNodes == [] && simLinks == [] && nodeElements == [] && linkElements == []
    {
      entities, flows, decorators := [], [], [];
      zoomEnabled := false;
      selectedNode := null;
      showFilters := false;
      filtersEnabled := false;
      showIsolated := false;
      drawPending := false;
      scaleMax := None;
      simNodes, simLinks := [], [];
      nodeElements, linkElements := [], [];
      nextNodeUid, nextLinkUid := 0, 0;
    }

    /** New data is bound: it replaces the old and a debounced draw is requested. */
    method OnDataChanged(newEntities: seq<Node>, newFlows: seq<Flow>, newDecorators: seq<Decorator>)
      modifies this`entities, this`flows, this`decorators, this`drawPending
      ensures entities == newEntities && flows == newFlows && decorators == newDecorators
      ensures drawPending
    {
      entities, flows, decorators := newEntities, newFlows, newDecorators;
      drawPending := true;
    }

    /**
     * enrichData: sets the scale domain from the largest flow count, stores
     * on each entity its flow count, and orders the entities by that count.
     * An absent entry stops the pass with an error: the entries before it
     * have their counts, the later ones are untouched.
     */
    method EnrichData(es: seq<Option<Node>>, fs: seq<Flow>) returns (ordered: Option<seq<Node>>)
      modifies this`scaleMax, NodesOf(es)`flowCount
      ensures scaleMax == MaxFlowCount(fs)
      ensures forall i :: 0 <= i < FirstMissing(es) ==> es[i].value.flowCount == FlowCount(fs, es[i].value.Ref())
      ensures forall n :: n in NodesOf(es) && n !in CountedPrefix(es) ==> n.flowCount == old(n.flowCount)
      ensures ordered.Some? <==> FirstMissing(es) == |es|
      ensures ordered.Some? ==> ordered.value == OrderBy(Values(es), ByFlowCount(fs))
      ensures ordered.Some? ==> forall i :: 0 <= i < |ordered.value| ==>
                ordered.value[i].flowCount == FlowCount(fs, ordered.value[i].Ref())
    {
      scaleMax := MaxFlowCount(fs);
      var done := AssignFlowCounts(es, fs);
      if done < |es| {
        return None;
      }
      var sorted := OrderBy(Values(es), ByFlowCount(fs));
      DrawnFrom(es, fs);
      return Some(sorted);
    }

    /** drawLinks and drawNodes: the link group, then the node group, is joined with the new data. */
    method Draw(nodes: seq<Node>, fs: seq<Flow>)
      requires Valid()
      modifies this`simNodes, this`simLinks, this`nodeElements, this`linkElements, this`nextNodeUid, this`nextLinkUid
      ensures Valid()
      ensures simNodes == nodes && simLinks == MkLinkData(Some(fs))
      ensures JoinedFrom(old(nodeElements), old(linkElements), old(nextNodeUid), old(nextLinkUid))
      ensures entities == old(entities) && flows == old(flows)
    {
      var links := MkLinkData(Some(fs));
      JoinRenders(nodes, links, nodeElements, linkElements, nextNodeUid, nextLinkUid);
      simNodes, simLinks, nodeElements, linkElements, nextNodeUid, nextLinkUid :=
        nodes, links, Join(nodeElements, NodeData(nodes), nextNodeUid), Join(linkElements, LinkData(links), nextLinkUid),
        nextNodeUid + |nodes|, nextLinkUid + |links|;
    }

    /** enrichData on the bound data: its entities are counted and replaced by their ordered list. */
    method EnrichBound()
      modifies this`entities, this`scaleMax, Objects(entities)`flowCount
      ensures entities == OrderBy(old(entities), ByFlowCount(flows))
      ensures forall i :: 0 <= i < |entities| ==> entities[i].flowCount == FlowCount(flows, entities[i].Ref())
      ensures scaleMax == MaxFlowCount(flows)
    {
      var es := Present(entities);
      AllPresent(entities);
      var ordered := EnrichData(es, flows);
      entities := ordered.value;
    }

    /** Enrich the bound data in place, keep its new order, and draw it. */
    method Redraw()
      requires Valid()
      modifies this`entities, this`scaleMax, this`simNodes, this`simLinks, this`nodeElements, this`linkElements, this`nextNodeUid, this`nextLinkUid
      modifies Objects(entities)`flowCount
      ensures Valid()
      ensures entities == OrderBy(old(entities), ByFlowCount(flows))
      ensures forall i :: 0 <= i < |entities| ==> entities[i].flowCount == FlowCount(flows, entities[i].Ref())
      ensures scaleMax == MaxFlowCount(flows)
      ensures simNodes == entities && simLinks == MkLinkData(Some(flows))
      ensures JoinedFrom(old(nodeElements), old(linkElements), old(nextNodeUid), old(nextLinkUid))
    {
      EnrichBound();
      Draw(entities, flows);
    }

    /** The debounced draw fires: when one was requested, the bound data is enriched and drawn. */
    method FlushDraw()
      requires Valid()
      modifies this`drawPending, this`entities, this`scaleMax, this`simNodes, this`simLinks, this`nodeElements, this`linkElements, this`nextNodeUid, this`nextLinkUid
      modifies Objects(entities)`flowCount
      ensures Valid()
      ensures !drawPending
      ensures old(drawPending) ==> entities == OrderBy(old(entities), ByFlowCount(flows))
      ensures old(drawPending) ==> forall i :: 0 <= i < |entities| ==> entities[i].flowCount == FlowCount(flows, entities[i].Ref())
      ensures old(drawPending) ==> scaleMax == MaxFlowCount(flows)
      ensures old(drawPending) ==> simNodes == entities && simLinks == MkLinkData(Some(flows))
      ensures old(drawPending) ==> JoinedFrom(old(nodeElements), old(linkElements), old(nextNodeUid), old(nextLinkUid))
      ensures !old(drawPending) ==> unchanged(this) && unchanged(Objects(entities))
    {
      if drawPending {
        drawPending := false;
        Redraw();
      }
    }

    method EnableZoom()
      modifies this`zoomEnabled
      ensures zoomEnabled
    {
      zoomEnabled := true;
    }

    method DisableZoom()
      modifies this`zoomEnabled
      ensures !zoomEnabled
    {
      zoomEnabled := false;
    }

    /** Every bound entity forgets its position and its pin; flow counts are kept. */
    method UnPinAll()
      modifies Objects(entities)`x, Objects(entities)`y, Objects(entities)`fx, Objects(entities)`fy
      ensures AllUnpinned(entities)
      ensures forall n :: n in entities ==> n.flowCount == old(n.flowCount)
    {
      var i := 0;
      while i < |entities|
        invariant i <= |entities|
        invariant forall k :: 0 <= k < i ==> entities[k].x == None && entities[k].y == None && entities[k].fx == None && entities[k].fy == None
      {
        entities[i].Unpin();
        i := i + 1;
      }
    }

    /** Reset: every entity is unpinned, the full graph is shown again, and a debounced draw is requested. */
    method ResetSimulation()
      modifies this`showIsolated, this`drawPending
      modifies Objects(entities)`x, Objects(entities)`y, Objects(entities)`fx, Objects(entities)`fy
      ensures AllUnpinned(entities)
      ensures !showIsolated && drawPending
    {
      UnPinAll();
      showIsolated := false;
      drawPending := true;
    }

    method OnDeselectNode()
      modifies this`selectedNode
      ensures selectedNode == null
    {
      selectedNode := null;
    }

    method OnHideFilters()
      modifies this`showFilters, this`filtersEnabled
      ensures !showFilters && !filtersEnabled
    {
      showFilters := false;
      filtersEnabled := false;
    }

    /** Showing the filters clears the selection. */
    method OnShowFilters()
      modifies this`selectedNode, this`showFilters, this`filtersEnabled
      ensures selectedNode == null && showFilters && filtersEnabled
    {
      OnDeselectNode();
      showFilters := true;
      filtersEnabled := true;
    }

    /** A click on a node hides the filters and toggles the selection of that node. */
    method OnSelectNode(node: Node)
      modifies this`selectedNode, this`showFilters, this`filtersEnabled
      ensures !showFilters && !filtersEnabled
      ensures selectedNode == if old(selectedNode) == node then null else node
    {
      OnHideFilters();
      if selectedNode == node {
        OnDeselectNode();
      } else {
        selectedNode := node;
      }
    }

    /** Leaving isolation draws the full bound data again at once. */
    method OnUndoIsolate()
      requires Valid()
      modifies this`showIsolated, this`entities, this`scaleMax, this`simNodes, this`simLinks, this`nodeElements, this`linkElements, this`nextNodeUid, this`nextLinkUid
      modifies Objects(entities)`flowCount
      ensures Valid()
      ensures !showIsolated
      ensures entities == OrderBy(old(entities), ByFlowCount(flows))
      ensures forall i :: 0 <= i < |entities| ==> entities[i].flowCount == FlowCount(flows, entities[i].Ref())
      ensures scaleMax == MaxFlowCount(flows)
      ensures simNodes == entities && simLinks == MkLinkData(Some(flows))
      ensures JoinedFrom(old(nodeElements), old(linkElements), old(nextNodeUid), old(nextLinkUid))
    {
      showIsolated := false;
      Redraw();
    }

    /** The flows an isolation keeps: those touching the selected entity, or none when nothing is selected. */
    function IsolationFlows(): seq<Flow>
      reads this`flows, this`selectedNode
    {
      if selectedNode == null then [] else IsolatedFlows(flows, selectedNode.id)
    }

    /** The entries an isolation draws: the ends of its flows, looked up among the bound entities. */
    function IsolationEntries(): seq<Option<Node>>
      reads this`entities, this`flows, this`selectedNode
    {
      IsolatedEntities(entities, IsolationFlows())
    }

    /**
     * enrichData and draw on the given entries and flows. An absent entry
     * makes the enrichment fail after the scale domain is set; nothing is
     * drawn then.
     */
    method EnrichAndDraw(es: seq<Option<Node>>, fs: seq<Flow>) returns (fault: Option<Fault>)
      requires Valid()
      requires NodesOf(es) <= Objects(entities)
      modifies this`scaleMax, this`simNodes, this`simLinks, this`nodeElements, this`linkElements, this`nextNodeUid, this`nextLinkUid
      modifies Objects(entities)`flowCount
      ensures Valid()
      ensures fault.None? || fault == Some(EntityNotFound)
      ensures fault.None? <==> AllFound(es)
      ensures scaleMax == MaxFlowCount(fs)
      ensures fault.None? ==> AllFound(es) && simNodes == OrderBy(Values(es), ByFlowCount(fs))
      ensures fault.None? ==> simLinks == MkLinkData(Some(fs))
      ensures fault.None? ==> forall i :: 0 <= i < |simNodes| ==> simNodes[i].flowCount == FlowCount(fs, simNodes[i].Ref())
      ensures fault.None? ==> JoinedFrom(old(nodeElements), old(linkElements), old(nextNodeUid), old(nextLinkUid))
      ensures fault.Some? ==> SameDrawing(old(simNodes), old(simLinks), old(nodeElements), old(linkElements), old(nextNodeUid), old(nextLinkUid))
      ensures forall i :: 0 <= i < FirstMissing(es) ==> es[i].value.flowCount == FlowCount(fs, es[i].value.Ref())
      ensures forall n :: n in entities && n !in CountedPrefix(es) ==> n.flowCount == old(n.flowCount)
    {
      var ordered := EnrichData(es, fs);
      if ordered.None? {
        return Some(EntityNotFound);
      }
      Draw(ordered.value, fs);
      return None;
    }

    /**
     * The isolated flows are those touching the selected entity; they and the
     * entities at their ends are enriched and drawn. Without a selected entity
     * the filter fails as soon as there is a flow to test, before anything is
     * counted or drawn.
     */
    method IsolateSelected() returns (fault: Option<Fault>)
      requires Valid()
      modifies this`scaleMax, this`simNodes, this`simLinks, this`nodeElements, this`linkElements, this`nextNodeUid, this`nextLinkUid
      modifies Objects(entities)`flowCount
      ensures Valid()
      ensures fault == Some(NoSelectedNode) <==> old(selectedNode) == null && old(flows) != []
      ensures fault == Some(EntityNotFound) <==>
                (old(selectedNode) != null || old(flows) == []) &&
                !(forall r :: IsEndpoint(old(IsolationFlows()), r) ==> Known(old(entities), r))
      ensures fault == Some(NoSelectedNode) ==>
                scaleMax == old(scaleMax) && forall n :: n in old(entities) ==> n.flowCount == old(n.flowCount)
      ensures var es, fs := old(IsolationEntries()), old(IsolationFlows());
              fault != Some(NoSelectedNode) ==>
                && scaleMax == MaxFlowCount(fs)
                && (forall i :: 0 <= i < FirstMissing(es) ==> es[i].value.flowCount == FlowCount(fs, es[i].value.Ref()))
                && (forall n :: n in old(entities) && n !in CountedPrefix(es) ==> n.flowCount == old(n.flowCount))
      ensures var es, fs := old(IsolationEntries()), old(IsolationFlows());
              fault.None? ==>
                && AllFound(es)
                && simNodes == OrderBy(Values(es), ByFlowCount(fs))
                && simLinks == MkLinkData(Some(fs))
                && (forall i :: 0 <= i < |simNodes| ==> simNodes[i].flowCount == FlowCount(fs, simNodes[i].Ref()))
      ensures fault.None? ==> JoinedFrom(old(nodeElements), old(linkElements), old(nextNodeUid), old(nextLinkUid))
      ensures fault.Some? ==> SameDrawing(old(simNodes), old(simLinks), old(nodeElements), old(linkElements), old(nextNodeUid), old(nextLinkUid))
    {
      if selectedNode == null && flows != [] {
        return Some(NoSelectedNode);
      }
      var iso := IsolationFlows();
      var looked := IsolationEntries();
      IsolatedEntitiesFound(entities, iso);
      fault := EnrichAndDraw(looked, iso);
    }

    /**
     * Isolation: the view switches to isolated mode and every bound entity is
     * unpinned; then the selected entity's flows are isolated and drawn.
     */
    method OnIsolate() returns (fault: Option<Fault>)
      requires Valid()
      modifies this`showIsolated, this`scaleMax, this`simNodes, this`simLinks, this`nodeElements, this`linkElements, this`nextNodeUid, this`nextLinkUid
      modifies Objects(entities)`x, Objects(entities)`y, Objects(entities)`fx, Objects(entities)`fy, Objects(entities)`flowCount
      ensures Valid() && showIsolated
      ensures AllUnpinned(old(entities))
      ensures fault == Some(NoSelectedNode) <==> old(selectedNode) == null && old(flows) != []
      ensures fault == Some(EntityNotFound) <==>
                (old(selectedNode) != null || old(flows) == []) &&
                !(forall r :: IsEndpoint(old(IsolationFlows()), r) ==> Known(old(entities), r))
      ensures fault == Some(NoSelectedNode) ==>
                scaleMax == old(scaleMax) && forall n :: n in old(entities) ==> n.flowCount == old(n.flowCount)
      ensures var es, fs := old(IsolationEntries()), old(IsolationFlows());
              fault != Some(NoSelectedNode) ==>
                && scaleMax == MaxFlowCount(fs)
                && (forall i :: 0 <= i < FirstMissing(es) ==> es[i].value.flowCount == FlowCount(fs, es[i].value.Ref()))
                && (forall n :: n in old(entities) && n !in CountedPrefix(es) ==> n.flowCount == old(n.flowCount))
      ensures var es, fs := old(IsolationEntries()), old(IsolationFlows());
              fault.None? ==>
                && AllFound(es)
                && simNodes == OrderBy(Values(es), ByFlowCount(fs))
                && simLinks == MkLinkData(Some(fs))
                && (forall i :: 0 <= i < |simNodes| ==> simNodes[i].flowCount == FlowCount(fs, simNodes[i].Ref()))
      ensures fault.None? ==> JoinedFrom(old(nodeElements), old(linkElements), old(nextNodeUid), old(nextLinkUid))
      ensures fault.Some? ==> SameDrawing(old(simNodes), old(simLinks), old(nodeElements), old(linkElements), old(nextNodeUid), old(nextLinkUid))
    {
      showIsolated := true;
      UnPinAll();
      fault := IsolateSelected();
    }
  }
}
