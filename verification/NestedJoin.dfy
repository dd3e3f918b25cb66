/** What eager loading is meant to return: for every node, the rows its own query of each requested
    edge would return, and so on down the query tree. The relation leaves open exactly what the
    database leaves open, the order of rows of equal rank. */
module NestedJoin {
  import opened Options
  import opened Graph
  import opened Listing

  datatype Tree = Tree(row: Row, loaded: seq<bool>, slots: seq<TreeSlot>)

  /** The three states of an edge field: nil, one node, a list of nodes. */
  datatype TreeSlot = NoTree | OneTree(tree: Tree) | ManyTrees(trees: seq<Tree>)

  function Requested(edges: seq<Request>): seq<bool> {
    seq(|edges|, k requires 0 <= k < |edges| => edges[k].With?)
  }

  /** `t` is the row `r` together with what the naive per-node queries of each edge return. */
  ghost predicate Loaded(db: Database, q: Query, fields: seq<Col>, r: Row, t: Tree)
    decreases q, 0
  {
    && t.row == Project(r, q.keyed, fields, q.edges)
    && t.loaded == Requested(q.edges)
    && |t.slots| == |q.edges|
    && forall k :: 0 <= k < |q.edges| ==> SlotLoaded(db, q.edges[k], r, t.slots[k])
  }

  ghost predicate SlotLoaded(db: Database, req: Request, r: Row, ts: TreeSlot)
    decreases req
  {
    match req
    case Omitted(_) => ts == NoTree
    case With(e, child) =>
      if ToMany(e) then
        ts.ManyTrees? && exists rows ::
          Answer(rows, ChildRows(db, e, child, r), child.rank) && ListLoaded(db, e, child, rows, ts.trees)
      else
        match ts
        case NoTree => ChildRows(db, e, child, r) == {}
        case OneTree(t) =>
          exists c :: c in ChildRows(db, e, child, r) && Loaded(db, child, ChildFields(e, child), c, t)
        case ManyTrees(_) => false
  }

  ghost predicate ListLoaded(db: Database, e: Edge, child: Query, rows: seq<Row>, ts: seq<Tree>)
    decreases child, 1
  {
    |ts| == |rows| && forall j :: 0 <= j < |rows| ==> Loaded(db, child, ChildFields(e, child), rows[j], ts[j])
  }

  // ---- The naive recursion: query the children of each node separately ----

  ghost function Naive(db: Database, q: Query, fields: seq<Col>, r: Row): Tree
    decreases q, 0
  {
    Tree(Project(r, q.keyed, fields, q.edges), Requested(q.edges),
         seq(|q.edges|, k requires 0 <= k < |q.edges| => NaiveSlot(db, q.edges[k], r)))
  }

  ghost function NaiveSlot(db: Database, req: Request, r: Row): TreeSlot
    decreases req
  {
    match req
    case Omitted(_) => NoTree
    case With(e, child) =>
      var rows := Arrange(ChildRows(db, e, child, r), child.rank);
      if ToMany(e) then ManyTrees(NaiveList(db, e, child, rows))
      else if rows == [] then NoTree
      else OneTree(Naive(db, child, ChildFields(e, child), rows[0]))
  }

  ghost function NaiveList(db: Database, e: Edge, child: Query, rows: seq<Row>): seq<Tree>
    decreases child, 1
  {
    seq(|rows|, j requires 0 <= j < |rows| => Naive(db, child, ChildFields(e, child), rows[j]))
  }

  /** No query of the tree has ties in its sort key. */
  ghost predicate TotalOrders(db: Database, q: Query)
    decreases q
  {
    forall k :: 0 <= k < |q.edges| && q.edges[k].With? ==>
      NoTies(Rows(db, q.edges[k].child.table), q.edges[k].child.rank) && TotalOrders(db, q.edges[k].child)
  }

  /** The naive recursion meets the relation, so the relation is never empty. */
  lemma {:induction false} NaiveLoads(db: Database, q: Query, fields: seq<Col>, r: Row)
    ensures Loaded(db, q, fields, r, Naive(db, q, fields, r))
    decreases q, 1
  {
    forall k | 0 <= k < |q.edges|
      ensures SlotLoaded(db, q.edges[k], r, NaiveSlot(db, q.edges[k], r))
    {
      NaiveSlotLoads(db, q.edges[k], r);
    }
  }

  lemma {:induction false} NaiveSlotLoads(db: Database, req: Request, r: Row)
    ensures SlotLoaded(db, req, r, NaiveSlot(db, req, r))
    decreases req
  {
    match req
    case Omitted(_) =>
    case With(e, child) =>
      var rows := Arrange(ChildRows(db, e, child, r), child.rank);
      forall j | 0 <= j < |rows|
        ensures Loaded(db, child, ChildFields(e, child), rows[j], Naive(db, child, ChildFields(e, child), rows[j]))
      {
        NaiveLoads(db, child, ChildFields(e, child), rows[j]);
      }
      if ToMany(e) {
        assert ListLoaded(db, e, child, rows, NaiveList(db, e, child, rows));
      } else if rows == [] {
        assert forall c :: c in ChildRows(db, e, child, r) ==> c in rows;
      } else {
        assert rows[0] in rows;
      }
  }

  /** Without ties the relation is a function: whatever satisfies it is the naive result. */
  lemma {:induction false} LoadedIsNaive(db: Database, q: Query, fields: seq<Col>, r: Row, t: Tree)
    requires WellFormed(db, q) && TotalOrders(db, q) && Loaded(db, q, fields, r, t)
    ensures t == Naive(db, q, fields, r)
    decreases q, 1
  {
    forall k | 0 <= k < |q.edges|
      ensures t.slots[k] == NaiveSlot(db, q.edges[k], r)
    {
      SlotIsNaive(db, q, q.edges[k], r, t.slots[k]);
    }
  }

  lemma {:induction false} SlotIsNaive(db: Database, q: Query, req: Request, r: Row, ts: TreeSlot)
    requires SlotLoaded(db, req, r, ts)
    requires req.With? ==> EdgeOk(db, q, req.edge, req.child) && WellFormed(db, req.child)
    requires req.With? ==> NoTies(Rows(db, req.child.table), req.child.rank) && TotalOrders(db, req.child)
    ensures ts == NaiveSlot(db, req, r)
    decreases req
  {
    match req
    case Omitted(_) =>
    case With(e, child) =>
      var s := ChildRows(db, e, child, r);
      var naive := Arrange(s, child.rank);
      if ToMany(e) {
        var rows :| Answer(rows, s, child.rank) && ListLoaded(db, e, child, rows, ts.trees);
        AnswerUnique(rows, naive, s, child.rank);
        ListIsNaive(db, e, child, rows, ts.trees);
      } else if ts.NoTree? {
        EmptyAnswer(naive, s, child.rank);
      } else {
        var c :| c in s && Loaded(db, child, ChildFields(e, child), c, ts.tree);
        LoadedIsNaive(db, child, ChildFields(e, child), c, ts.tree);
        OnlyTarget(db, e, child, r, c, naive);
      }
  }

  lemma {:induction false} ListIsNaive(db: Database, e: Edge, child: Query, rows: seq<Row>, ts: seq<Tree>)
    requires WellFormed(db, child) && TotalOrders(db, child) && ListLoaded(db, e, child, rows, ts)
    ensures ts == NaiveList(db, e, child, rows)
    decreases child, 2
  {
    forall j | 0 <= j < |rows|
      ensures ts[j] == Naive(db, child, ChildFields(e, child), rows[j])
    {
      LoadedIsNaive(db, child, ChildFields(e, child), rows[j], ts[j]);
    }
  }

  /** A foreign key has at most one target, so the target heads every listing of the targets. */
  lemma OnlyTarget(db: Database, e: Edge, child: Query, r: Row, c: Row, rows: seq<Row>)
    requires e.M2O? && Keyed(Rows(db, child.table)) && c in ChildRows(db, e, child, r)
    requires Answer(rows, ChildRows(db, e, child, r), child.rank)
    ensures rows != [] && rows[0] == c
  {
    assert c in rows && rows[0] in rows;
  }
}
