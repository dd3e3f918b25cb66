/** What the contracts of the loaders mean for a caller: equality with the naive recursion, the edge
    accessors, and the two ways of configuring a child query under which batching is not the naive join. */
module EagerLoadResults {
  import opened Options
  import opened Graph
  import opened Listing
  import opened NestedJoin
  import opened EagerLoad

  /** When no sort key of the tree has ties, a batched run returns exactly the trees of the naive recursion,
      in the order of the rows. */
  lemma BatchedIsNaive(db: Database, q: Query, rows: seq<Row>, nodes: seq<Node>, ts: seq<Tree>, own: set<Node>)
    requires WellFormed(db, q) && TotalOrders(db, q) && AllLoaded(db, q, rows, nodes, ts, own)
    ensures |ts| == |rows| && forall i :: 0 <= i < |rows| ==> ts[i] == Naive(db, q, q.fields, rows[i])
  {
    forall i | 0 <= i < |rows| ensures ts[i] == Naive(db, q, q.fields, rows[i]) {
      LoadedIsNaive(db, q, q.fields, rows[i], ts[i]);
    }
  }

  /** Runs a query and reports its result as the naive recursion would. */
  method All(db: Database, q: Query) returns (err: Option<LoadError>, nodes: seq<Node>, ghost rows: seq<Row>, ghost own: set<Node>)
    requires WellFormed(db, q) && TotalOrders(db, q) && NoTies(Matching(db, q), q.rank)
    ensures err.None? && fresh(own) && |nodes| == |rows|
    ensures PageOfAnswer(rows, Matching(db, q), q.rank, q.limit, q.offset)
    ensures rows == Page(Arrange(Matching(db, q), q.rank), SpecLimit(q), SpecOffset(q))
    ensures forall i :: 0 <= i < |nodes| ==> Represents(nodes[i], Naive(db, q, q.fields, rows[i]), own)
  {
    ghost var ts;
    err, rows, nodes, ts, own := SqlAll(db, q);
    BatchedIsNaive(db, q, rows, nodes, ts, own);
    ghost var all :| Answer(all, Matching(db, q), q.rank) && rows == Page(all, SpecLimit(q), SpecOffset(q));
    AnswerUnique(all, Arrange(Matching(db, q), q.rank), Matching(db, q), q.rank);
  }

  // ---- Edge accessors ----

  datatype Access<T> = Found(value: T) | NotFound | NotLoaded

  /** The accessor of a to-one edge, such as `ProxyOrErr`. */
  function OneOrErr(n: Node, k: nat): Access<Node>
    requires k < |n.slots| && k < |n.loaded|
    reads n
  {
    if n.slots[k].One? then Found(n.slots[k].node)
    else if n.loaded[k] then NotFound
    else NotLoaded
  }

  /** The accessor of a to-many edge, such as `GroupsOrErr`. */
  function ManyOrErr(n: Node, k: nat): Access<seq<Node>>
    requires k < |n.slots| && k < |n.loaded|
    reads n
  {
    if n.loaded[k] then Found(if n.slots[k].Many? then n.slots[k].nodes else []) else NotLoaded
  }

  ghost predicate ScannedFrom(q: Query, fields: seq<Col>, r: Row, n: Node) {
    n.row == Project(r, q.keyed, fields, q.edges)
  }

  lemma RowOf(db: Database, q: Query, fields: seq<Col>, r: Row, n: Node, t: Tree, own: set<Node>)
    requires Represents(n, t, own) && Loaded(db, q, fields, r, t)
    ensures ScannedFrom(q, fields, r, n)
  {
  }

  /** After loading, a to-one accessor answers "not loaded" exactly for an edge that was not requested, and
      "not found" exactly for a key that is nil or names no selected row; otherwise it gives the node of the
      row that the key names. */
  lemma OneOrErrExact(db: Database, q: Query, r: Row, n: Node, t: Tree, own: set<Node>, k: nat)
    requires Represents(n, t, own) && Loaded(db, q, q.fields, r, t)
    requires k < |q.edges| && q.edges[k].edge.M2O?
    ensures OneOrErr(n, k) == NotLoaded <==> q.edges[k].Omitted?
    ensures q.edges[k].With? ==>
      var e, child := q.edges[k].edge, q.edges[k].child;
      var fk := Fk(r, e.column, e.nullable);
      && (OneOrErr(n, k) == NotFound <==> fk.None? || forall c :: c in Matching(db, child) ==> c.id != fk.value)
      && (OneOrErr(n, k).Found? ==> exists c :: c in Matching(db, child) && fk == Some(c.id) && ScannedFrom(child, child.fields, c, OneOrErr(n, k).value))
  {
    assert SlotLoaded(db, q.edges[k], r, t.slots[k]) && SlotRepresents(n.slots[k], t.slots[k], own);
    if q.edges[k].With? {
      var e, child := q.edges[k].edge, q.edges[k].child;
      var fk := Fk(r, e.column, e.nullable);
      match t.slots[k]
      case NoTree =>
        forall c | c in Matching(db, child) ensures fk != Some(c.id) {
          assert c !in ChildRows(db, e, child, r);
        }
      case OneTree(ct) =>
        var c :| c in ChildRows(db, e, child, r) && Loaded(db, child, ChildFields(e, child), c, ct);
        RowOf(db, child, child.fields, c, n.slots[k].node, ct, own);
    }
  }

  /** After loading, a to-many accessor answers "not loaded" exactly for an edge that was not requested;
      otherwise it lists one node for each row of the edge, in the order of the child query. */
  lemma ManyOrErrExact(db: Database, q: Query, r: Row, n: Node, t: Tree, own: set<Node>, k: nat)
    requires Represents(n, t, own) && Loaded(db, q, q.fields, r, t)
    requires k < |q.edges| && ToMany(q.edges[k].edge)
    ensures ManyOrErr(n, k) == NotLoaded <==> q.edges[k].Omitted?
    ensures q.edges[k].With? ==>
      var e, child := q.edges[k].edge, q.edges[k].child;
      exists rows :: Answer(rows, ChildRows(db, e, child, r), child.rank) && |ManyOrErr(n, k).value| == |rows| &&
        forall j :: 0 <= j < |rows| ==>
          ScannedFrom(child, ChildFields(e, child), rows[j], ManyOrErr(n, k).value[j])
  {
    assert SlotLoaded(db, q.edges[k], r, t.slots[k]) && SlotRepresents(n.slots[k], t.slots[k], own);
    if q.edges[k].With? {
      var e, child := q.edges[k].edge, q.edges[k].child;
      var rows :| Answer(rows, ChildRows(db, e, child, r), child.rank) && ListLoaded(db, e, child, rows, t.slots[k].trees);
      forall j | 0 <= j < |rows|
        ensures ScannedFrom(child, ChildFields(e, child), rows[j], ManyOrErr(n, k).value[j])
      {
        RowOf(db, child, ChildFields(e, child), rows[j], n.slots[k].nodes[j], t.slots[k].trees[j], own);
      }
    }
  }

  // ---- A child query that is reused ----

  /** What a loader of a key-based edge adds to the child query. */
  function KeyPred(e: Edge, ids: set<ID>): Pred
    requires !e.M2M?
  {
    if e.O2M? then ColIn(e.column, ids) else IdIn(ids)
  }

  /** The key by which such an edge finds the children of a parent. */
  function ParentKey(e: Edge, r: Row): Option<ID>
    requires !e.M2M?
  {
    if e.O2M? then Some(r.id) else Fk(r, e.column, e.nullable)
  }

  predicate KeyIn(e: Edge, r: Row, ids: set<ID>)
    requires !e.M2M?
  {
    ParentKey(e, r).Some? && ParentKey(e, r).value in ids
  }

  /** The constraint on a foreign key that is not a pointer. */
  ghost predicate KeysPresent(db: Database, e: Edge, child: Query) {
    e.O2M? && !e.nullable ==> forall c :: c in Rows(db, child.table) ==> e.column in c.cols
  }

  /** Narrowing by a set of keys keeps the children of the parents with such a key, and no others. */
  lemma NarrowedChildren(db: Database, e: Edge, child: Query, ids: set<ID>, r: Row)
    requires !e.M2M? && KeysPresent(db, e, child)
    ensures ChildRows(db, e, Narrowed(e, child, KeyPred(e, ids)), r) == if KeyIn(e, r, ids) then ChildRows(db, e, child, r) else {}
  {
    NarrowedKeeps(db, e, child, KeyPred(e, ids));
  }

  /** A loader of a key-based edge narrows the child query it is given in place, so a builder that is run twice
      carries the first run's keys into the second. The second run then finds a parent's rows exactly when the
      parent's key was among those of the first run, or the parent has no rows. */
  lemma ReusedChildExact(db: Database, e: Edge, child: Query, first: set<ID>, second: set<ID>, r: Row)
    requires !e.M2M? && KeysPresent(db, e, child)
    requires ParentKey(e, r).Some? ==> KeyIn(e, r, second)
    ensures var again := Narrowed(e, Narrowed(e, child, KeyPred(e, first)), KeyPred(e, second));
      ChildRows(db, e, again, r) == ChildRows(db, e, child, r) <==> KeyIn(e, r, first) || ChildRows(db, e, child, r) == {}
  {
    NarrowedChildren(db, e, child, first, r);
    NarrowedChildren(db, e, Narrowed(e, child, KeyPred(e, first)), second, r);
  }

  /** The columns of a many-to-many load: every run of the builder adds a join that puts its own column first. */
  function JoinColumns(runs: nat, joinColumn: Col, cols: seq<Col>): seq<Col> {
    if runs == 0 then cols else [joinColumn] + JoinColumns(runs - 1, joinColumn, cols)
  }

  /** The callback of a many-to-many load takes the second value for the child's ID. It is, whatever fields are
      selected, in the first run of a builder, and in no later one. */
  lemma SecondValueIsChildId(runs: nat, joinColumn: Col, fields: seq<Col>, edges: seq<Request>)
    requires runs > 0 && joinColumn != ID_COLUMN
    requires forall i :: 0 <= i < |edges| && edges[i].edge.M2O? ==> edges[i].edge.column != ID_COLUMN
    ensures var cols := JoinColumns(runs, joinColumn, Columns(true, fields, edges));
      |cols| > 1 && (cols[1] == ID_COLUMN <==> runs == 1)
  {
    ProjectionKeepsKeys(fields, edges);
  }

  // ---- A child query with a limit or an offset ----

  /** The keys of a batch of parents. */
  ghost function BatchKeys(e: Edge, parents: set<Row>): set<ID>
    requires !e.M2M?
  {
    set r | r in parents && ParentKey(e, r).Some? :: ParentKey(e, r).value
  }

  /** `got` are the (parent, child) pairs that some run of the batched query assigns. For a many-to-many edge
      limit and offset count join rows, for the others child rows. */
  ghost predicate Batch(db: Database, e: Edge, child: Query, parents: set<Row>, got: set<(Row, Row)>) {
    if e.M2M? then
      exists all :: Answer(all, JoinRows(db, child, e.join, set r | r in parents :: r.id), ByChild(child.rank)) &&
        got == set r, c | r in parents && c in ChildRows(db, e, child, r) && (r.id, c) in Page(all, SpecLimit(child), SpecOffset(child)) :: (r, c)
    else
      exists all :: Answer(all, Matching(db, Narrowed(e, child, KeyPred(e, BatchKeys(e, parents)))), child.rank) &&
        got == set r, c | r in parents && c in ChildRows(db, e, child, r) && c in Page(all, SpecLimit(child), SpecOffset(child)) :: (r, c)
  }

  /** The parent gets what some run of its own query would give it. */
  ghost predicate FairTo(db: Database, e: Edge, child: Query, r: Row, got: set<(Row, Row)>) {
    exists all :: Answer(all, ChildRows(db, e, child, r), child.rank) &&
      forall c :: c in ChildRows(db, e, child, r) ==> ((r, c) in got <==> c in Page(all, SpecLimit(child), SpecOffset(child)))
  }

  /** Without paging every batch is fair to every parent. */
  lemma UnpagedIsFair(db: Database, e: Edge, child: Query, parents: set<Row>, got: set<(Row, Row)>, r: Row)
    requires Unpaged(child) && Batch(db, e, child, parents, got) && r in parents && KeysPresent(db, e, child)
    ensures FairTo(db, e, child, r, got)
  {
    var mine := Arrange(ChildRows(db, e, child, r), child.rank);
    assert Page(mine, 0, 0) == mine;
    if !e.M2M? {
      NarrowedKeeps(db, e, child, KeyPred(e, BatchKeys(e, parents)));
    }
    forall c | c in ChildRows(db, e, child, r) ensures (r, c) in got && c in mine {
      if e.M2M? {
        assert (r.id, c) in JoinRows(db, child, e.join, set p | p in parents :: p.id);
      } else {
        assert ParentKey(e, r).value in BatchKeys(e, parents);
      }
    }
  }

  /** Row number `i`, whose key column, if there is one, holds its own number. */
  function Numbered(e: Edge, i: nat): Row { Row(i, if e.M2M? then map[] else map[e.column := i]) }

  function AllNumbered(e: Edge, n: nat): set<Row> { set i | 0 <= i < n :: Numbered(e, i) }

  lemma {:induction false} AllNumberedSize(e: Edge, n: nat)
    ensures |AllNumbered(e, n)| == n
  {
    if n > 0 {
      AllNumberedSize(e, n - 1);
      assert AllNumbered(e, n) == AllNumbered(e, n - 1) + {Numbered(e, n - 1)};
      assert Numbered(e, n - 1) !in AllNumbered(e, n - 1);
    }
  }

  /** A table in which every row has one child over the edge: itself. */
  ghost predicate OneChildEach(db: Database, e: Edge, child: Query, n: nat) {
    && child.preds == [] && Rows(db, child.table) == AllNumbered(e, n)
    && (e.M2M? ==> forall x, y :: Link(x, y) in Links(db, e.join) <==> x == y && 0 <= x < n)
  }

  lemma OnlyChild(db: Database, e: Edge, child: Query, n: nat, r: Row)
    requires OneChildEach(db, e, child, n) && r in AllNumbered(e, n)
    ensures ChildRows(db, e, child, r) == {r}
  {
  }

  /** Of one row more than a page reaches, the page leaves one out, and with an offset it skips one. */
  lemma PageVictim<T(!new)>(s: set<T>, all: seq<T>, rank: T -> int, l: nat, o: nat) returns (victim: T)
    requires Answer(all, s, rank) && |s| == l + o + 1 && l + o > 0
    ensures victim in s && (victim in Page(all, l, o) <==> o > 0)
  {
    AnswerLength(all, s, rank);
    victim := if o > 0 then all[o] else all[l];
    assert victim in all;
    if o > 0 {
      assert Page(all, l, o)[0] == victim;
    }
  }

  lemma BatchVictim(db: Database, e: Edge, child: Query, n: nat, got: set<(Row, Row)>) returns (victim: Row)
    requires OneChildEach(db, e, child, n) && Batch(db, e, child, AllNumbered(e, n), got)
    requires n == SpecLimit(child) + SpecOffset(child) + 1 > 1
    ensures victim in AllNumbered(e, n) && ((victim, victim) in got <==> SpecOffset(child) > 0)
  {
    var l, o, parents := SpecLimit(child), SpecOffset(child), AllNumbered(e, n);
    AllNumberedSize(e, n);
    if e.M2M? {
      var pairs := JoinRows(db, child, e.join, set r | r in parents :: r.id);
      var all :| Answer(all, pairs, ByChild(child.rank)) &&
        got == set r, c | r in parents && c in ChildRows(db, e, child, r) && (r.id, c) in Page(all, l, o) :: (r, c);
      JoinRowsSize(db, e, child, n);
      var p := PageVictim(pairs, all, ByChild(child.rank), l, o);
      victim := p.1;
      assert p == (victim.id, victim);
      OnlyChild(db, e, child, n, victim);
    } else {
      var narrowed := Narrowed(e, child, KeyPred(e, BatchKeys(e, parents)));
      NarrowedKeeps(db, e, child, KeyPred(e, BatchKeys(e, parents)));
      AllReached(db, e, child, n);
      var all :| Answer(all, Matching(db, narrowed), child.rank) &&
        got == set r, c | r in parents && c in ChildRows(db, e, child, r) && c in Page(all, l, o) :: (r, c);
      victim := PageVictim(parents, all, child.rank, l, o);
      OnlyChild(db, e, child, n, victim);
    }
  }

  lemma AllReached(db: Database, e: Edge, child: Query, n: nat)
    requires !e.M2M? && OneChildEach(db, e, child, n)
    ensures Matching(db, Narrowed(e, child, KeyPred(e, BatchKeys(e, AllNumbered(e, n))))) == AllNumbered(e, n)
  {
    var p := KeyPred(e, BatchKeys(e, AllNumbered(e, n)));
    NarrowedKeeps(db, e, child, p);
    forall r | r in AllNumbered(e, n) ensures Satisfies(p, r) {
      assert ParentKey(e, r) == Some(r.id);
      assert r.id in BatchKeys(e, AllNumbered(e, n));
    }
  }

  lemma JoinRowsSize(db: Database, e: Edge, child: Query, n: nat)
    requires e.M2M? && OneChildEach(db, e, child, n)
    ensures var pairs := JoinRows(db, child, e.join, set r | r in AllNumbered(e, n) :: r.id);
      |pairs| == n && forall p :: p in pairs ==> p.1 in AllNumbered(e, n) && p == (p.1.id, p.1)
  {
    var pairs := JoinRows(db, child, e.join, set r | r in AllNumbered(e, n) :: r.id);
    forall p ensures p in pairs <==> p in NumberedPairs(e, n) {
      if p in NumberedPairs(e, n) {
        assert p.1 in AllNumbered(e, n) && p == (p.1.id, p.1);
      }
    }
    assert pairs == NumberedPairs(e, n);
    NumberedPairsSize(e, n);
  }

  function NumberedPairs(e: Edge, n: nat): set<(ID, Row)> { set i | 0 <= i < n :: (i, Numbered(e, i)) }

  lemma {:induction false} NumberedPairsSize(e: Edge, n: nat)
    ensures |NumberedPairs(e, n)| == n
  {
    if n > 0 {
      NumberedPairsSize(e, n - 1);
      assert NumberedPairs(e, n) == NumberedPairs(e, n - 1) + {(n - 1, Numbered(e, n - 1))};
      assert (n - 1, Numbered(e, n - 1)) !in NumberedPairs(e, n - 1);
    }
  }

  /** LIMIT and OFFSET apply to the batch and not to each parent: for an edge of any kind, and for every limit and
      offset that page at all, there is a database on which no run of the batched query is fair to all parents. */
  lemma PagingIsUnfair(e: Edge, limit: Option<nat>, offset: Option<nat>) returns (db: Database, child: Query, parents: set<Row>)
    requires OrZero(limit) + OrZero(offset) > 0
    ensures child.limit == limit && child.offset == offset && child.edges == []
    ensures forall got :: Batch(db, e, child, parents, got) ==> exists r :: r in parents && !FairTo(db, e, child, r, got)
  {
    child := Query("rows", true, [], [], (r: Row) => r.id, limit, offset, []);
    var n := SpecLimit(child) + SpecOffset(child) + 1;
    parents := AllNumbered(e, n);
    db := Database(map["rows" := parents], if e.M2M? then map[e.join := set i | 0 <= i < n :: Link(i, i)] else map[]);
    assert OneChildEach(db, e, child, n);
    forall got | Batch(db, e, child, parents, got) ensures exists r :: r in parents && !FairTo(db, e, child, r, got) {
      var victim := BatchVictim(db, e, child, n, got);
      OnlyChildVictim(db, e, child, n, victim, got);
    }
  }

  /** A parent's only child is on the parent's own page exactly when there is no offset. */
  lemma OnlyChildVictim(db: Database, e: Edge, child: Query, n: nat, victim: Row, got: set<(Row, Row)>)
    requires OneChildEach(db, e, child, n) && victim in AllNumbered(e, n)
    requires (victim, victim) in got <==> SpecOffset(child) > 0
    ensures !FairTo(db, e, child, victim, got)
  {
    OnlyChild(db, e, child, n, victim);
    forall all | Answer(all, {victim}, child.rank)
      ensures victim in Page(all, SpecLimit(child), SpecOffset(child)) <==> SpecOffset(child) == 0
    {
      AnswerLength(all, {victim}, child.rank);
      assert all[0] in all;
    }
  }
}
