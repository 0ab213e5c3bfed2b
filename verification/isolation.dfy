/**
 * The data of an isolated view: the flows that touch the selected entity and
 * the entities at either end of them, looked up among the graph's entities.
 */
module Isolation {
  import opened Maybe
  import opened Refs
  import opened Uniq
  import opened Counting
  import opened Nodes

  /** A flow touches an entity when either end has its id; the kind is not compared. */
  predicate Touches(f: Flow, id: int) {
    f.source.id == id || f.target.id == id
  }

  /** The flows that touch the entity with the given id, in their original order. */
  function IsolatedFlows(flows: seq<Flow>, id: int): seq<Flow> {
    if flows == [] then []
    else (if Touches(flows[0], id) then [flows[0]] else []) + IsolatedFlows(flows[1..], id)
  }

  /** Each flow that touches the entity is kept as often as it occurs; no other flow is kept. */
  lemma {:induction false} IsolatedFlowsCount(flows: seq<Flow>, id: int)
    ensures forall f :: multiset(IsolatedFlows(flows, id))[f] == if Touches(f, id) then multiset(flows)[f] else 0
  {
    if flows != [] {
      IsolatedFlowsCount(flows[1..], id);
      assert flows == [flows[0]] + flows[1..];
    }
  }

  /** Filtering distributes over concatenation, so the kept flows stay in their original order. */
  lemma {:induction false} IsolatedFlowsAppend(a: seq<Flow>, b: seq<Flow>, id: int)
    ensures IsolatedFlows(a + b, id) == IsolatedFlows(a, id) + IsolatedFlows(b, id)
  {
    if a == [] {
      assert a + b == b;
    } else {
      var head := if Touches(a[0], id) then [a[0]] else [];
      assert (a + b)[0] == a[0] && (a + b)[1..] == a[1..] + b;
      assert IsolatedFlows(a + b, id) == head + IsolatedFlows((a + b)[1..], id);
      IsolatedFlowsAppend(a[1..], b, id);
      assert IsolatedFlows(a, id) == head + IsolatedFlows(a[1..], id);
      assert head + (IsolatedFlows(a[1..], id) + IsolatedFlows(b, id))
          == (head + IsolatedFlows(a[1..], id)) + IsolatedFlows(b, id);
    }
  }

  function Self(r: EntityRef): EntityRef {
    r
  }

  /** The endpoints of the given flows, each once, in order of first appearance. */
  function EndpointRefs(flows: seq<Flow>): seq<EntityRef> {
    UniqBy(Endpoints(flows), Self)
  }

  /** An endpoint of some flow. */
  ghost predicate IsEndpoint(flows: seq<Flow>, r: EntityRef) {
    exists k :: 0 <= k < |flows| && (flows[k].source == r || flows[k].target == r)
  }

  /** The endpoint references are distinct and are exactly the ends of the flows. */
  lemma EndpointRefsSpec(flows: seq<Flow>)
    ensures forall i, j :: 0 <= i < j < |EndpointRefs(flows)| ==> EndpointRefs(flows)[i] != EndpointRefs(flows)[j]
    ensures forall r :: r in EndpointRefs(flows) <==> IsEndpoint(flows, r)
  {
    var ends := Endpoints(flows);
    var refs := EndpointRefs(flows);
    UniqBySpec(ends, Self);
    forall i, j | 0 <= i < j < |refs| ensures refs[i] != refs[j] {
      assert Self(refs[i]) != Self(refs[j]);
    }
    forall r ensures r in refs <==> IsEndpoint(flows, r) {
      EndpointSlots(flows, r);
      if r in refs {
        var i :| 0 <= i < |refs| && refs[i] == r;
        assert Self(refs[i]) in KeySet(ends, Self);
      }
      if r in ends {
        var e :| 0 <= e < |ends| && ends[e] == r;
        assert Self(ends[e]) in KeySet(refs, Self);
      }
    }
  }

  /** A reference fills an endpoint slot exactly when it is an end of some flow. */
  lemma EndpointSlots(flows: seq<Flow>, r: EntityRef)
    ensures r in Endpoints(flows) <==> IsEndpoint(flows, r)
  {
    var ends := Endpoints(flows);
    if r in ends {
      var e :| 0 <= e < |ends| && ends[e] == r;
      EndpointSlot(flows, e);
    }
    if IsEndpoint(flows, r) {
      var k :| 0 <= k < |flows| && (flows[k].source == r || flows[k].target == r);
      var e := if flows[k].source == r then 2 * k else 2 * k + 1;
      assert ends[e] == r;
    }
  }

  /** Whether some entity stands for r. */
  ghost predicate Known(entities: seq<Node>, r: EntityRef) {
    exists i :: 0 <= i < |entities| && entities[i].Ref() == r
  }

  /** The entity a reference names; when several stand for it, the last one. */
  function EntityByRef(entities: seq<Node>, r: EntityRef): (found: Option<Node>)
    ensures found.None? <==> !Known(entities, r)
    ensures found.Some? ==> exists i :: 0 <= i < |entities| && entities[i] == found.value && found.value.Ref() == r &&
                                        forall j :: i < j < |entities| ==> entities[j].Ref() != r
  {
    if entities == [] then None
    else
      var last := entities[|entities| - 1];
      var init := entities[..|entities| - 1];
      if last.Ref() == r then Some(last)
      else
        var found := EntityByRef(init, r);
        assert Known(entities, r) ==> Known(init, r) by {
          if Known(entities, r) {
            var i :| 0 <= i < |entities| && entities[i].Ref() == r;
            assert init[i] == entities[i];
          }
        }
        assert found.Some? ==> exists i :: 0 <= i < |entities| && entities[i] == found.value && found.value.Ref() == r &&
                                           forall j :: i < j < |entities| ==> entities[j].Ref() != r by {
          if found.Some? {
            var i :| 0 <= i < |init| && init[i] == found.value && found.value.Ref() == r &&
                     forall j :: i < j < |init| ==> init[j].Ref() != r;
            assert entities[i] == found.value;
            forall j | i < j < |entities| ensures entities[j].Ref() != r {
              if j < |init| { assert entities[j] == init[j]; }
            }
          }
        }
        found
  }

  /** Every reference looked up among the entities, in the order given. */
  function LookupAll(entities: seq<Node>, refs: seq<EntityRef>): seq<Option<Node>> {
    seq(|refs|, i requires 0 <= i < |refs| => EntityByRef(entities, refs[i]))
  }

  /** The entities of an isolated view: the ends of its flows, looked up. */
  function IsolatedEntities(entities: seq<Node>, isolated: seq<Flow>): seq<Option<Node>> {
    LookupAll(entities, EndpointRefs(isolated))
  }

  /**
   * The entities of an isolated view are all found exactly when every end of
   * every isolated flow is known; found entries are the last entity with that
   * reference, and no entry names an entity that is not an end of the flows.
   */
  lemma IsolatedEntitiesSpec(entities: seq<Node>, isolated: seq<Flow>)
    ensures (forall i :: 0 <= i < |IsolatedEntities(entities, isolated)| ==> IsolatedEntities(entities, isolated)[i].Some?)
            <==> (forall r :: IsEndpoint(isolated, r) ==> Known(entities, r))
    ensures forall i :: 0 <= i < |IsolatedEntities(entities, isolated)| && IsolatedEntities(entities, isolated)[i].Some? ==>
              IsolatedEntities(entities, isolated)[i].value in entities &&
              IsEndpoint(isolated, IsolatedEntities(entities, isolated)[i].value.Ref())
  {
    var refs := EndpointRefs(isolated);
    var looked := IsolatedEntities(entities, isolated);
    EndpointRefsSpec(isolated);
    if forall i :: 0 <= i < |looked| ==> looked[i].Some? {
      forall r | IsEndpoint(isolated, r) ensures Known(entities, r) {
        var i :| 0 <= i < |refs| && refs[i] == r;
        assert looked[i] == EntityByRef(entities, r);
      }
    }
    if forall r :: IsEndpoint(isolated, r) ==> Known(entities, r) {
      forall i | 0 <= i < |looked| ensures looked[i].Some? {
        assert refs[i] in refs;
        assert looked[i] == EntityByRef(entities, refs[i]);
      }
    }
    forall i | 0 <= i < |looked| && looked[i].Some?
      ensures looked[i].value in entities && IsEndpoint(isolated, looked[i].value.Ref())
    {
      assert looked[i] == EntityByRef(entities, refs[i]);
      assert refs[i] in refs;
    }
  }

  /** When every entry is found, no entity appears twice in an isolated view. */
  lemma IsolatedEntitiesDistinct(entities: seq<Node>, isolated: seq<Flow>)
    requires forall i :: 0 <= i < |IsolatedEntities(entities, isolated)| ==> IsolatedEntities(entities, isolated)[i].Some?
    ensures forall i, j :: 0 <= i < j < |IsolatedEntities(entities, isolated)| ==>
              IsolatedEntities(entities, isolated)[i].value != IsolatedEntities(entities, isolated)[j].value
  {
    var refs := EndpointRefs(isolated);
    var looked := IsolatedEntities(entities, isolated);
    EndpointRefsSpec(isolated);
    forall i, j | 0 <= i < j < |looked| ensures looked[i].value != looked[j].value {
      assert looked[i] == EntityByRef(entities, refs[i]);
      assert looked[j] == EntityByRef(entities, refs[j]);
    }
  }
}
