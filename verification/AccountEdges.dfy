/** The edge specifications of an account, as create and update hand them to the database, and what the
    database makes of them. */
module AccountEdges {
  import opened Options
  import opened Graph

  datatype EdgeName = Groups | Proxy | UsageLogs

  datatype EdgeSpec = EdgeSpec(edge: EdgeName, nodes: seq<ID>)

  /** The neighbours of one account. */
  datatype Neighbours = Neighbours(groups: set<ID>, proxy: Option<ID>, usageLogs: set<ID>)

  function IdSet(ids: seq<ID>): set<ID> { set x | x in ids }

  /** Clearing an edge without naming nodes clears it altogether. */
  function ClearOne(n: Neighbours, e: EdgeSpec): Neighbours {
    match e.edge
    case Groups => n.(groups := if e.nodes == [] then {} else n.groups - IdSet(e.nodes))
    case Proxy => n.(proxy := None)
    case UsageLogs => n.(usageLogs := if e.nodes == [] then {} else n.usageLogs - IdSet(e.nodes))
  }

  function AddOne(n: Neighbours, e: EdgeSpec): Neighbours {
    match e.edge
    case Groups => n.(groups := n.groups + IdSet(e.nodes))
    case Proxy => if e.nodes == [] then n else n.(proxy := Some(e.nodes[0]))
    case UsageLogs => n.(usageLogs := n.usageLogs + IdSet(e.nodes))
  }

  function ClearAll(n: Neighbours, es: seq<EdgeSpec>): Neighbours {
    if es == [] then n else ClearOne(ClearAll(n, es[..|es| - 1]), es[|es| - 1])
  }

  function AddAll(n: Neighbours, es: seq<EdgeSpec>): Neighbours {
    if es == [] then n else AddOne(AddAll(n, es[..|es| - 1]), es[|es| - 1])
  }

  lemma ReplayOneMore(n: Neighbours, es: seq<EdgeSpec>, e: EdgeSpec)
    ensures ClearAll(n, es + [e]) == ClearOne(ClearAll(n, es), e)
    ensures AddAll(n, es + [e]) == AddOne(AddAll(n, es), e)
  {
    assert (es + [e])[..|es|] == es;
  }

  lemma ReplayAppended(n: Neighbours, es: seq<EdgeSpec>, edge: EdgeName, ids: seq<ID>)
    ensures AddAll(n, es + if ids != [] then [EdgeSpec(edge, ids)] else []) == AddOne(AddAll(n, es), EdgeSpec(edge, ids))
  {
    ReplayOneMore(n, es, EdgeSpec(edge, ids));
    assert es + [] == es;
  }

  const NO_NEIGHBOURS := Neighbours({}, None, {})
}
