/** mkLinkData: the edges of the graph, one per ordered pair of endpoint ids. */
module Links {
  import opened Maybe
  import opened Refs
  import opened Uniq

  /** An edge as handed to the renderer and the link force: its key, endpoint ids and originating flow. */
  datatype Link = Link(id: string, source: int, target: int, data: Flow)

  /** The ordered pair of endpoint ids of a flow. */
  function EndpointIds(f: Flow): (int, int) {
    (f.source.id, f.target.id)
  }

  /** The link made from one flow. */
  function ToLink(f: Flow): Link {
    Link(LinkKey(f.source.id, f.target.id), f.source.id, f.target.id, f)
  }

  function LinkId(l: Link): string {
    l.id
  }

  /** The link of each flow, in flow order. */
  function ToLinks(flows: seq<Flow>): seq<Link> {
    if flows == [] then [] else [ToLink(flows[0])] + ToLinks(flows[1..])
  }

  lemma {:induction false} ToLinksIndex(flows: seq<Flow>)
    ensures |ToLinks(flows)| == |flows|
    ensures forall i :: 0 <= i < |flows| ==> ToLinks(flows)[i] == ToLink(flows[i])
  {
    if flows != [] {
      var rest := ToLinks(flows[1..]);
      ToLinksIndex(flows[1..]);
      forall i | 1 <= i < |flows| ensures ToLinks(flows)[i] == ToLink(flows[i]) {
        assert ToLinks(flows)[i] == rest[i - 1] && flows[i] == flows[1..][i - 1];
      }
    }
  }

  /**
   * mkLinkData: one link per flow, keyed by the ids of its ends, then unique
   * by link id, keeping the first. Absent flows give no links.
   */
  function MkLinkData(flows: Option<seq<Flow>>): seq<Link> {
    UniqBy(ToLinks(flows.GetOr([])), LinkId)
  }

  /**
   * Absent flows give no links; there are never more links than flows; link
   * ids are distinct; and each link comes from one of the flows, runs between
   * the ids of its ends, and is keyed by their decimal text joined by "_".
   */
  lemma MkLinkDataSpec(flows: Option<seq<Flow>>)
    ensures flows.None? ==> MkLinkData(flows) == []
    ensures |MkLinkData(flows)| <= |flows.GetOr([])|
    ensures forall i, j :: 0 <= i < j < |MkLinkData(flows)| ==> MkLinkData(flows)[i].id != MkLinkData(flows)[j].id
    ensures forall l :: l in MkLinkData(flows) ==>
              && l.data in flows.GetOr([])
              && l.source == l.data.source.id && l.target == l.data.target.id
              && l.id == LinkKey(l.source, l.target)
  {
    var all := ToLinks(flows.GetOr([]));
    var links := MkLinkData(flows);
    UniqBySpec(all, LinkId);
    ToLinksIndex(flows.GetOr([]));
    forall i, j | 0 <= i < j < |links| ensures links[i].id != links[j].id {
      assert LinkId(links[i]) != LinkId(links[j]);
    }
    forall l | l in links ensures l in all {
      var i :| 0 <= i < |links| && links[i] == l;
      assert LinkId(l) in KeySet(all, LinkId);
    }
  }

  /** The link keys of a set of endpoint-id pairs. */
  function KeysOfPairs(pairs: set<(int, int)>): set<string> {
    set p | p in pairs :: LinkKey(p.0, p.1)
  }

  lemma PairKeyMembership(seen: set<(int, int)>, p: (int, int))
    ensures LinkKey(p.0, p.1) in KeysOfPairs(seen) <==> p in seen
    ensures KeysOfPairs(seen + {p}) == KeysOfPairs(seen) + {LinkKey(p.0, p.1)}
  {
    if LinkKey(p.0, p.1) in KeysOfPairs(seen) {
      var q :| q in seen && LinkKey(q.0, q.1) == LinkKey(p.0, p.1);
      LinkKeyInjective(q.0, q.1, p.0, p.1);
    }
  }

  lemma ToLinksCons(f: Flow, rest: seq<Flow>)
    ensures ToLinks([f] + rest) == [ToLink(f)] + ToLinks(rest)
  {
    assert ([f] + rest)[1..] == rest;
  }

  /** Deduplicating links by their text key decides exactly as deduplicating flows by endpoint-id pair. */
  lemma {:induction false} UniqLinksByPair(flows: seq<Flow>, seen: set<(int, int)>)
    ensures UniqFrom(ToLinks(flows), LinkId, KeysOfPairs(seen)) == ToLinks(UniqFrom(flows, EndpointIds, seen))
  {
    if flows != [] {
      var f, tail := flows[0], flows[1..];
      var p := EndpointIds(f);
      var ls := ToLinks(flows);
      assert flows == [f] + tail;
      ToLinksCons(f, tail);
      assert ls[0] == ToLink(f) && LinkId(ls[0]) == LinkKey(p.0, p.1);
      assert ls[1..] == ToLinks(tail);
      PairKeyMembership(seen, p);
      if p in seen {
        UniqLinksByPair(tail, seen);
        assert UniqFrom(ls, LinkId, KeysOfPairs(seen)) == UniqFrom(ToLinks(tail), LinkId, KeysOfPairs(seen));
        assert UniqFrom(flows, EndpointIds, seen) == UniqFrom(tail, EndpointIds, seen);
      } else {
        UniqLinksByPair(tail, seen + {p});
        var rest := UniqFrom(tail, EndpointIds, seen + {p});
        assert UniqFrom(ls, LinkId, KeysOfPairs(seen))
            == [ToLink(f)] + UniqFrom(ToLinks(tail), LinkId, KeysOfPairs(seen + {p}));
        assert UniqFrom(flows, EndpointIds, seen) == [f] + rest;
        ToLinksCons(f, rest);
      }
    }
  }

  /** The links are exactly the first flow of each endpoint-id pair, in first-occurrence order. */
  lemma LinkDedupByPair(flows: seq<Flow>)
    ensures MkLinkData(Some(flows)) == ToLinks(UniqBy(flows, EndpointIds))
  {
    assert KeysOfPairs({}) == {};
    UniqLinksByPair(flows, {});
  }

  /** Spec: the number of links is the number of distinct ordered pairs of endpoint ids. */
  lemma LinkCount(flows: seq<Flow>)
    ensures |MkLinkData(Some(flows))| == |KeySet(flows, EndpointIds)|
  {
    LinkDedupByPair(flows);
    UniqBySpec(flows, EndpointIds);
    ToLinksIndex(UniqBy(flows, EndpointIds));
    DistinctKeysCount(UniqBy(flows, EndpointIds), EndpointIds);
  }

  /** Every flow is represented: the link key of each flow is the key of some link. */
  lemma LinksCoverFlows(flows: seq<Flow>)
    ensures forall k :: 0 <= k < |flows| ==> LinkId(ToLink(flows[k])) in KeySet(MkLinkData(Some(flows)), LinkId)
  {
    var links := MkLinkData(Some(flows));
    var firsts := UniqBy(flows, EndpointIds);
    UniqBySpec(flows, EndpointIds);
    ToLinksIndex(firsts);
    LinkDedupByPair(flows);
    forall k | 0 <= k < |flows| ensures LinkId(ToLink(flows[k])) in KeySet(links, LinkId) {
      assert EndpointIds(flows[k]) in KeySet(flows, EndpointIds);
      var i :| 0 <= i < |firsts| && EndpointIds(firsts[i]) == EndpointIds(flows[k]);
      assert LinkId(links[i]) == LinkId(ToLink(flows[k]));
    }
  }

  /**
   * Each link carries the first flow with its endpoint-id pair, and the links
   * come in the order in which those first flows occur.
   */
  lemma LinksCarryFirstFlows(flows: seq<Flow>)
    ensures var links := MkLinkData(Some(flows));
      && (forall i :: 0 <= i < |links| ==>
            (links[i].source, links[i].target) in KeySet(flows, EndpointIds) &&
            links[i].data == flows[FirstIndex(flows, EndpointIds, (links[i].source, links[i].target))])
      && (forall i, j :: 0 <= i < j < |links| ==>
            FirstIndex(flows, EndpointIds, (links[i].source, links[i].target)) <
            FirstIndex(flows, EndpointIds, (links[j].source, links[j].target)))
  {
    var links := MkLinkData(Some(flows));
    var firsts := UniqBy(flows, EndpointIds);
    UniqBySpec(flows, EndpointIds);
    ToLinksIndex(firsts);
    LinkDedupByPair(flows);
    forall i | 0 <= i < |links|
      ensures (links[i].source, links[i].target) == EndpointIds(firsts[i])
      ensures EndpointIds(firsts[i]) in KeySet(firsts, EndpointIds)
    {
    }
  }
}
