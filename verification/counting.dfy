/**
 * The counting half of enrichData: how often each entity reference occurs
 * as an endpoint of the raw (not deduplicated) flows, and the largest count.
 */
module Counting {
  import opened Maybe
  import opened Refs

  /** `flatMap(f => [f.source, f.target])`: both endpoints of every flow, in flow order. */
  function Endpoints(flows: seq<Flow>): (refs: seq<EntityRef>)
    ensures |refs| == 2 * |flows|
    ensures forall i :: 0 <= i < |flows| ==> refs[2 * i] == flows[i].source && refs[2 * i + 1] == flows[i].target
  {
    if flows == [] then [] else [flows[0].source, flows[0].target] + Endpoints(flows[1..])
  }

  /** How many endpoint slots r fills: one for every flow it leaves and one for every flow it enters. */
  function Degree(flows: seq<Flow>, r: EntityRef): nat {
    if flows == [] then 0
    else (if flows[0].source == r then 1 else 0) + (if flows[0].target == r then 1 else 0) + Degree(flows[1..], r)
  }

  /** `_.countBy(refs, refToString)`: each ref that occurs, with the number of its occurrences. */
  function CountBy(refs: seq<EntityRef>): map<EntityRef, nat> {
    if refs == [] then map[]
    else
      var counts := CountBy(refs[..|refs| - 1]);
      var last := refs[|refs| - 1];
      counts[last := (if last in counts then counts[last] else 0) + 1]
  }

  /** The counts hold exactly the refs that occur, each with its number of occurrences. */
  lemma {:induction false} CountBySpec(refs: seq<EntityRef>)
    ensures forall r :: r in CountBy(refs) <==> r in refs
    ensures forall r :: r in CountBy(refs) ==> CountBy(refs)[r] == multiset(refs)[r]
  {
    if refs != [] {
      var front, last := refs[..|refs| - 1], refs[|refs| - 1];
      assert refs == front + [last];
      CountBySpec(front);
    }
  }

  /** The per-reference counts of a flow list. */
  function FlowCounts(flows: seq<Flow>): map<EntityRef, nat> {
    CountBy(Endpoints(flows))
  }

  /** `flowCounts[refToString(n)]`: the count kept for r, absent when r is no endpoint. */
  function CountOf(counts: map<EntityRef, nat>, r: EntityRef): Option<nat> {
    if r in counts then Some(counts[r]) else None
  }

  /** The flowCount an entity with reference r receives from enrichData over these flows. */
  function FlowCount(flows: seq<Flow>, r: EntityRef): Option<nat> {
    CountOf(FlowCounts(flows), r)
  }

  /** `_.max` over the counts of the given refs: absent for no refs. */
  function MaxOf(counts: map<EntityRef, nat>, refs: seq<EntityRef>): Option<nat>
    requires forall r :: r in refs ==> r in counts
  {
    if refs == [] then None
    else
      var rest := MaxOf(counts, refs[1..]);
      var c := counts[refs[0]];
      if rest.None? || rest.value < c then Some(c) else rest
  }

  /** The maximum is absent only for no refs; otherwise it bounds every count and is one of them. */
  lemma {:induction false} MaxOfSpec(counts: map<EntityRef, nat>, refs: seq<EntityRef>)
    requires forall r :: r in refs ==> r in counts
    ensures MaxOf(counts, refs).None? <==> refs == []
    ensures MaxOf(counts, refs).Some? ==> forall i :: 0 <= i < |refs| ==> counts[refs[i]] <= MaxOf(counts, refs).value
    ensures MaxOf(counts, refs).Some? ==> exists i :: 0 <= i < |refs| && counts[refs[i]] == MaxOf(counts, refs).value
  {
    if refs != [] {
      MaxOfSpec(counts, refs[1..]);
      var max := MaxOf(counts, refs).value;
      forall i | 0 < i < |refs| ensures counts[refs[i]] <= max {
        assert refs[i] == refs[1..][i - 1];
      }
      if MaxOf(counts, refs[1..]).Some? && MaxOf(counts, refs[1..]).value == max {
        var i :| 0 <= i < |refs[1..]| && counts[refs[1..][i]] == max;
        assert counts[refs[i + 1]] == max;
      }
    }
  }

  /** `maxFlowCount = _.max(_.values(flowCounts))`. */
  function MaxFlowCount(flows: seq<Flow>): Option<nat> {
    CountBySpec(Endpoints(flows));
    MaxOf(FlowCounts(flows), Endpoints(flows))
  }

  /** The number of occurrences of r among the endpoints is its degree. */
  lemma {:induction false} EndpointOccurrences(flows: seq<Flow>, r: EntityRef)
    ensures multiset(Endpoints(flows))[r] == Degree(flows, r)
  {
    if flows != [] {
      var f := flows[0];
      assert Endpoints(flows) == [f.source, f.target] + Endpoints(flows[1..]);
      EndpointOccurrences(flows[1..], r);
    }
  }

  /**
   * Count correctness: an entity's flowCount is the number of times its
   * reference appears as source or target across all raw flows, duplicates
   * included; an entity no flow touches gets no count.
   */
  lemma FlowCountIsDegree(flows: seq<Flow>, r: EntityRef)
    ensures FlowCount(flows, r) == if Degree(flows, r) == 0 then None else Some(Degree(flows, r))
  {
    CountBySpec(Endpoints(flows));
    EndpointOccurrences(flows, r);
  }

  /** Every endpoint slot belongs to a flow. */
  lemma EndpointSlot(flows: seq<Flow>, i: nat)
    requires i < |Endpoints(flows)|
    ensures i / 2 < |flows|
    ensures Endpoints(flows)[i] == flows[i / 2].source || Endpoints(flows)[i] == flows[i / 2].target
  {
    assert i == 2 * (i / 2) || i == 2 * (i / 2) + 1;
  }

  /** No reference has a degree above maxFlowCount. */
  lemma MaxFlowCountBounds(flows: seq<Flow>, r: EntityRef)
    requires MaxFlowCount(flows).Some?
    ensures Degree(flows, r) <= MaxFlowCount(flows).value
  {
    var refs, counts := Endpoints(flows), FlowCounts(flows);
    CountBySpec(refs);
    MaxOfSpec(counts, refs);
    EndpointOccurrences(flows, r);
    if r in refs {
      var i :| 0 <= i < |refs| && refs[i] == r;
      assert counts[refs[i]] <= MaxFlowCount(flows).value;
    }
  }

  /**
   * The scale bound: maxFlowCount is absent exactly when there are no flows;
   * otherwise no reference has a larger degree and some flow endpoint has exactly it.
   */
  lemma MaxFlowCountSpec(flows: seq<Flow>)
    ensures MaxFlowCount(flows).None? <==> flows == []
    ensures MaxFlowCount(flows).Some? ==>
              (forall r :: Degree(flows, r) <= MaxFlowCount(flows).value) &&
              (exists f :: f in flows && (Degree(flows, f.source) == MaxFlowCount(flows).value ||
                                          Degree(flows, f.target) == MaxFlowCount(flows).value))
  {
    var refs, counts := Endpoints(flows), FlowCounts(flows);
    CountBySpec(refs);
    MaxOfSpec(counts, refs);
    var max := MaxFlowCount(flows);
    if max.Some? {
      forall r ensures Degree(flows, r) <= max.value {
        MaxFlowCountBounds(flows, r);
      }
      var i :| 0 <= i < |refs| && counts[refs[i]] == max.value;
      EndpointOccurrences(flows, refs[i]);
      EndpointSlot(flows, i);
      var f := flows[i / 2];
      assert f in flows;
      assert Degree(flows, f.source) == max.value || Degree(flows, f.target) == max.value;
    }
  }

  /** Every entity's flowCount lies within the scale domain [1, maxFlowCount]. */
  lemma FlowCountWithinDomain(flows: seq<Flow>, r: EntityRef)
    requires FlowCount(flows, r).Some?
    ensures MaxFlowCount(flows).Some?
    ensures 1 <= FlowCount(flows, r).value <= MaxFlowCount(flows).value
  {
    FlowCountIsDegree(flows, r);
    MaxFlowCountSpec(flows);
    EndpointOccurrences(flows, r);
  }
}
