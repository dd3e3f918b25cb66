/** The edge part of an account update: which edges it tells the database to clear and to add, and what
    replaying them leaves. */
module EdgeUpdate {
  import opened Options
  import opened Graph
  import opened AccountEdges

  /** The pending changes of a to-many edge, as the mutation reports them. */
  datatype Change = Change(cleared: bool, removed: seq<ID>, added: seq<ID>)

  datatype Pending = Pending(groups: Change, proxyCleared: bool, proxies: seq<ID>, usageLogs: Change)

  /** Collects the edge specifications of an update, edge by edge. The guards on empty lists matter: a removal
      that named no node would clear the edge. Replaying the clears and then the adds gives, for neighbours of
      any account, exactly the pending changes. */
  method EdgeSpecs(m: Pending) returns (clear: seq<EdgeSpec>, add: seq<EdgeSpec>)
    ensures forall n ::
      var r := AddAll(ClearAll(n, clear), add);
      && r.groups == (if m.groups.cleared then {} else n.groups - set x | x in m.groups.removed) + set x | x in m.groups.added
      && r.proxy == (if m.proxies != [] then Some(m.proxies[0]) else if m.proxyCleared then None else n.proxy)
      && r.usageLogs == (if m.usageLogs.cleared then {} else n.usageLogs - set x | x in m.usageLogs.removed) + set x | x in m.usageLogs.added
  {
    var clear1, add1 := ToManySpecs(Groups, m.groups, [], []);
    var clear2, add2 := ProxySpecs(m, clear1, add1);
    clear, add := ToManySpecs(UsageLogs, m.usageLogs, clear2, add2);
    forall n
      ensures AddAll(ClearAll(n, clear), add) ==
        AddOne(AddOne(AddOne(Cleared(if m.proxyCleared then Cleared(n, Groups, m.groups).(proxy := None) else Cleared(n, Groups, m.groups),
                                     UsageLogs, m.usageLogs),
                             EdgeSpec(Groups, m.groups.added)), EdgeSpec(Proxy, m.proxies)), EdgeSpec(UsageLogs, m.usageLogs.added))
    {
      var c := ClearAll(n, clear);
      assert c == Cleared(ClearAll(n, clear2), UsageLogs, m.usageLogs);
      assert ClearAll(n, clear1) == Cleared(ClearAll(n, []), Groups, m.groups);
      assert AddAll(c, add) == AddOne(AddAll(c, add2), EdgeSpec(UsageLogs, m.usageLogs.added));
      assert AddAll(c, add1) == AddOne(AddAll(c, []), EdgeSpec(Groups, m.groups.added));
    }
  }

  method ProxySpecs(m: Pending, clear: seq<EdgeSpec>, add: seq<EdgeSpec>) returns (clear': seq<EdgeSpec>, add': seq<EdgeSpec>)
    ensures forall n :: ClearAll(n, clear') == if m.proxyCleared then ClearAll(n, clear).(proxy := None) else ClearAll(n, clear)
    ensures forall n :: AddAll(n, add') == AddOne(AddAll(n, add), EdgeSpec(Proxy, m.proxies))
  {
    clear', add' := clear, add;
    if m.proxyCleared {
      clear' := clear' + [EdgeSpec(Proxy, [])];
    }
    if |m.proxies| > 0 {
      add' := add' + [EdgeSpec(Proxy, m.proxies)];
    }
    forall n
      ensures ClearAll(n, clear + [EdgeSpec(Proxy, [])]) == ClearAll(n, clear).(proxy := None)
      ensures AddAll(n, add + [EdgeSpec(Proxy, m.proxies)]) == AddOne(AddAll(n, add), EdgeSpec(Proxy, m.proxies))
    {
      ReplayOneMore(n, clear, EdgeSpec(Proxy, []));
      ReplayOneMore(n, add, EdgeSpec(Proxy, m.proxies));
    }
  }

  function Cleared(n: Neighbours, edge: EdgeName, c: Change): Neighbours {
    match edge
    case Groups => n.(groups := if c.cleared then {} else n.groups - IdSet(c.removed))
    case UsageLogs => n.(usageLogs := if c.cleared then {} else n.usageLogs - IdSet(c.removed))
    case Proxy => n
  }

  method ToManySpecs(edge: EdgeName, c: Change, clear: seq<EdgeSpec>, add: seq<EdgeSpec>)
    returns (clear': seq<EdgeSpec>, add': seq<EdgeSpec>)
    requires edge != Proxy
    ensures forall n :: ClearAll(n, clear') == Cleared(ClearAll(n, clear), edge, c)
    ensures forall n :: AddAll(n, add') == AddOne(AddAll(n, add), EdgeSpec(edge, c.added))
  {
    clear', add' := clear, add;
    if c.cleared {
      clear' := clear' + [EdgeSpec(edge, [])];
    }
    if |c.removed| > 0 && !c.cleared {
      clear' := clear' + [EdgeSpec(edge, c.removed)];
    }
    if |c.added| > 0 {
      add' := add' + [EdgeSpec(edge, c.added)];
    }
    assert clear' == clear + ClearSpecs(edge, c);
    assert add' == add + if c.added != [] then [EdgeSpec(edge, c.added)] else [];
    forall n
      ensures ClearAll(n, clear') == Cleared(ClearAll(n, clear), edge, c)
      ensures AddAll(n, add') == AddOne(AddAll(n, add), EdgeSpec(edge, c.added))
    {
      ReplayCleared(n, clear, edge, c);
      ReplayAppended(n, add, edge, c.added);
    }
  }

  /** At most one specification clears a to-many edge. */
  function ClearSpecs(edge: EdgeName, c: Change): seq<EdgeSpec> {
    if c.cleared then [EdgeSpec(edge, [])] else if c.removed != [] then [EdgeSpec(edge, c.removed)] else []
  }

  lemma ReplayCleared(n: Neighbours, clear: seq<EdgeSpec>, edge: EdgeName, c: Change)
    requires edge != Proxy
    ensures ClearAll(n, clear + ClearSpecs(edge, c)) == Cleared(ClearAll(n, clear), edge, c)
  {
    ReplayOneMore(n, clear, EdgeSpec(edge, if c.cleared then [] else c.removed));
    assert clear + [] == clear;
  }

  function OnEdge(n: Neighbours, edge: EdgeName): set<ID> {
    match edge
    case Groups => n.groups
    case UsageLogs => n.usageLogs
    case Proxy => if n.proxy.Some? then {n.proxy.value} else {}
  }

  /** The guards of a removal. Without them its specification would be appended after every clear. The one on
      an empty list is needed: dropping it changes what a replay leaves, except for neighbours that have nothing
      on the edge anyway. The one on a cleared edge is not needed. */
  lemma RemovalGuardExact(n: Neighbours, edge: EdgeName, c: Change, clear: seq<EdgeSpec>)
    requires edge != Proxy
    ensures var unguarded := clear + (if c.cleared then [EdgeSpec(edge, [])] else []) + [EdgeSpec(edge, c.removed)];
      ClearAll(n, unguarded) == Cleared(ClearAll(n, clear), edge, c) <==>
        c.cleared || c.removed != [] || OnEdge(ClearAll(n, clear), edge) == {}
  {
    var cleared := clear + if c.cleared then [EdgeSpec(edge, [])] else [];
    ReplayOneMore(n, clear, EdgeSpec(edge, []));
    ReplayOneMore(n, cleared, EdgeSpec(edge, c.removed));
    assert clear + [] == clear;
    assert IdSet([]) == {};
  }
}
