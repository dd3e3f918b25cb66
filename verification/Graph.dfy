/** Finite tables, link tables, and the query trees that eager loading runs against them.
    A query carries the declared edges of its entity type; an edge is either omitted or requested
    together with the query that loads its far side. */
module Graph {
  import opened Options

  type ID = int
  type Col = string
  type Table = string

  const ID_COLUMN: Col := "id"

  /** A stored row: its key, and the columns that are not NULL. */
  datatype Row = Row(id: ID, cols: map<Col, int>)

  /** One row of a join table such as `account_groups`. */
  datatype Link = Link(from: ID, to: ID)

  datatype Database = Database(tables: map<Table, set<Row>>, links: map<Table, set<Link>>)

  function Rows(db: Database, t: Table): set<Row> {
    if t in db.tables then db.tables[t] else {}
  }

  function Links(db: Database, t: Table): set<Link> {
    if t in db.links then db.links[t] else {}
  }

  /** The primary-key constraint. */
  ghost predicate Keyed(rows: set<Row>) {
    forall r, s :: r in rows && s in rows && r.id == s.id ==> r == s
  }

  /** How one entity type reaches another. `nullable` says whether the foreign key is a pointer field
      of the entity; a field that is not a pointer reads as zero when its column was not scanned. */
  datatype Edge =
    | M2M(join: Table)
    | M2O(column: Col, nullable: bool)
    | O2M(column: Col, nullable: bool)

  datatype Request = Omitted(edge: Edge) | With(edge: Edge, child: Query)

  datatype Pred =
    | Where(holds: Row -> bool)
    | IdIn(ids: set<ID>)
    | ColIn(col: Col, ids: set<ID>)

  /** `keyed` tells the entities with an ID column from those, like `account_groups`, without one.
      `rank` is the sort key of the ORDER BY clause; rows of equal rank come in any order. */
  datatype Query = Query(
    table: Table,
    keyed: bool,
    fields: seq<Col>,
    preds: seq<Pred>,
    rank: Row -> int,
    limit: Option<nat>,
    offset: Option<nat>,
    edges: seq<Request>)

  /** The value of a foreign-key field of the entity scanned from `r`. */
  function Fk(r: Row, column: Col, nullable: bool): Option<ID> {
    if column in r.cols then Some(r.cols[column]) else if nullable then None else Some(0)
  }

  predicate Satisfies(p: Pred, r: Row) {
    match p
    case Where(holds) => holds(r)
    case IdIn(ids) => r.id in ids
    case ColIn(col, ids) => col in r.cols && r.cols[col] in ids
  }

  predicate SatisfiesAll(ps: seq<Pred>, r: Row) {
    forall i :: 0 <= i < |ps| ==> Satisfies(ps[i], r)
  }

  lemma SatisfiesOneMore(ps: seq<Pred>, p: Pred, r: Row)
    ensures SatisfiesAll(ps + [p], r) <==> SatisfiesAll(ps, r) && Satisfies(p, r)
  {
    assert forall i :: 0 <= i < |ps| ==> (ps + [p])[i] == ps[i];
    assert (ps + [p])[|ps|] == p;
    if SatisfiesAll(ps + [p], r) {
      forall i | 0 <= i < |ps| ensures Satisfies(ps[i], r) { assert Satisfies((ps + [p])[i], r); }
    }
  }

  /** The rows a query selects before ordering and paging. */
  function Matching(db: Database, q: Query): set<Row> {
    set r | r in Rows(db, q.table) && SatisfiesAll(q.preds, r)
  }

  // ---- Projection: the columns that querySpec asks for ----

  /** The requested fields without the ID column. */
  function WithoutId(fields: seq<Col>): seq<Col> {
    if fields == [] then []
    else WithoutId(fields[..|fields| - 1]) + if fields[|fields| - 1] == ID_COLUMN then [] else [fields[|fields| - 1]]
  }

  /** Appends a column unless it is already listed. */
  function AddOnce(cols: seq<Col>, c: Col): seq<Col> {
    if c in cols then cols else cols + [c]
  }

  /** Adds the foreign key of each requested many-to-one edge. */
  function AddKeys(cols: seq<Col>, edges: seq<Request>): seq<Col> {
    if edges == [] then cols
    else
      var rest := AddKeys(cols, edges[..|edges| - 1]);
      var e := edges[|edges| - 1];
      if e.With? && e.edge.M2O? then AddOnce(rest, e.edge.column) else rest
  }

  /** The column list of a query whose `fields` are not empty. */
  function Columns(keyed: bool, fields: seq<Col>, edges: seq<Request>): seq<Col> {
    AddKeys(if keyed then [ID_COLUMN] + WithoutId(fields) else fields, edges)
  }

  /** The entity scanned from `r`: every column when no field was selected, the listed ones otherwise.
      A field whose column was not scanned keeps its zero value. */
  function Project(r: Row, keyed: bool, fields: seq<Col>, edges: seq<Request>): Row {
    if fields == [] then r
    else
      var cols := Columns(keyed, fields, edges);
      Row(if ID_COLUMN in cols then r.id else 0, map c | c in r.cols && c in cols :: r.cols[c])
  }

  lemma {:induction false} AddKeysKeeps(cols: seq<Col>, edges: seq<Request>)
    ensures cols <= AddKeys(cols, edges)
    ensures forall c :: c in cols ==> c in AddKeys(cols, edges)
    ensures forall i :: 0 <= i < |edges| && edges[i].With? && edges[i].edge.M2O? ==> edges[i].edge.column in AddKeys(cols, edges)
    ensures forall c :: c in AddKeys(cols, edges)[|cols|..] ==>
      exists i :: 0 <= i < |edges| && edges[i].With? && edges[i].edge.M2O? && edges[i].edge.column == c
  {
    if edges != [] {
      var n := |edges| - 1;
      var init := edges[..n];
      AddKeysKeeps(cols, init);
      forall i | 0 <= i < |edges| && edges[i].With? && edges[i].edge.M2O?
        ensures edges[i].edge.column in AddKeys(cols, edges)
      {
        if i < n { assert init[i] == edges[i]; }
      }
      forall c | c in AddKeys(cols, edges)[|cols|..]
        ensures exists i :: 0 <= i < |edges| && edges[i].With? && edges[i].edge.M2O? && edges[i].edge.column == c
      {
        if c in AddKeys(cols, init)[|cols|..] {
          var i :| 0 <= i < |init| && init[i].With? && init[i].edge.M2O? && init[i].edge.column == c;
          assert edges[i] == init[i];
        } else {
          assert edges[n].With? && edges[n].edge.M2O? && edges[n].edge.column == c;
        }
      }
    }
  }

  lemma {:induction false} WithoutIdKeeps(fields: seq<Col>)
    ensures ID_COLUMN !in WithoutId(fields)
    ensures forall c :: c in WithoutId(fields) <==> c in fields && c != ID_COLUMN
  {
    if fields != [] {
      WithoutIdKeeps(fields[..|fields| - 1]);
      assert fields == fields[..|fields| - 1] + [fields[|fields| - 1]];
    }
  }

  /** The column is the foreign key of a requested many-to-one edge. */
  predicate IsKeyOf(c: Col, edges: seq<Request>) {
    exists i :: 0 <= i < |edges| && edges[i].With? && edges[i].edge.M2O? && edges[i].edge.column == c
  }

  /** No join key is lost in projection: the ID column comes first and once, every selected field is
      there, and so is the foreign key of every requested many-to-one edge; and nothing else is. */
  lemma ProjectionKeepsKeys(fields: seq<Col>, edges: seq<Request>)
    requires forall i :: 0 <= i < |edges| && edges[i].edge.M2O? ==> edges[i].edge.column != ID_COLUMN
    ensures var cols := Columns(true, fields, edges);
      && |cols| > 0 && cols[0] == ID_COLUMN
      && (forall j :: 0 < j < |cols| ==> cols[j] != ID_COLUMN)
      && (forall c :: c in cols <==> c == ID_COLUMN || c in fields || IsKeyOf(c, edges))
  {
    WithoutIdKeeps(fields);
    var base := [ID_COLUMN] + WithoutId(fields);
    AddKeysKeeps(base, edges);
    var cols := Columns(true, fields, edges);
    forall j | 0 < j < |cols| ensures cols[j] != ID_COLUMN {
      if j < |base| {
        assert cols[j] == base[j] == WithoutId(fields)[j - 1];
      } else {
        assert cols[|base|..][j - |base|] in cols[|base|..];
      }
    }
    forall c ensures c in cols <==> c == ID_COLUMN || c in fields || IsKeyOf(c, edges) {
      assert cols == base + cols[|base|..];
      assert c in base <==> c == ID_COLUMN || c in fields;
    }
  }

  /** The entity scanned from a row: everything without a selection, else the ID and exactly the selected columns
      and requested foreign keys that are not NULL. */
  lemma ProjectExact(r: Row, fields: seq<Col>, edges: seq<Request>)
    requires forall i :: 0 <= i < |edges| && edges[i].edge.M2O? ==> edges[i].edge.column != ID_COLUMN
    ensures var p := Project(r, true, fields, edges);
      && p.id == r.id
      && (forall c :: c in p.cols <==> c in r.cols && (fields == [] || c == ID_COLUMN || c in fields || IsKeyOf(c, edges)))
      && (forall c :: c in p.cols ==> p.cols[c] == r.cols[c])
  {
    ProjectionKeepsKeys(fields, edges);
  }

  /** Builds the column list the way querySpec does, one append at a time. */
  method QuerySpecColumns(keyed: bool, fields: seq<Col>, edges: seq<Request>) returns (cols: seq<Col>)
    ensures cols == Columns(keyed, fields, edges)
  {
    if keyed {
      cols := [ID_COLUMN];
      for i := 0 to |fields|
        invariant cols == [ID_COLUMN] + WithoutId(fields[..i])
      {
        assert fields[..i + 1][..i] == fields[..i];
        if fields[i] != ID_COLUMN {
          cols := cols + [fields[i]];
        }
      }
      assert fields[..|fields|] == fields;
    } else {
      cols := fields;
    }
    ghost var base := cols;
    for i := 0 to |edges|
      invariant cols == AddKeys(base, edges[..i])
    {
      assert edges[..i + 1][..i] == edges[..i];
      if edges[i].With? && edges[i].edge.M2O? && edges[i].edge.column !in cols {
        cols := cols + [edges[i].edge.column];
      }
    }
    assert edges[..|edges|] == edges;
  }

  // ---- Query trees ----

  const MAX_INT32: nat := 0x7FFF_FFFF

  /** The LIMIT that a builder leaves on a selector that had `before`: an offset brings a limit of its own, which
      a limit of the builder replaces; a limit of zero is a limit. */
  function LimitClause(limit: Option<nat>, offset: Option<nat>, before: Option<nat>): Option<nat> {
    if limit.Some? then limit else if offset.Some? then Some(MAX_INT32) else before
  }

  function Max(a: nat, b: nat): nat { if a < b then b else a }

  /** Height of a query tree; it does not depend on predicates, fields or paging. */
  function Height(q: Query): nat
    decreases q
  {
    1 + HeightAll(q.edges)
  }

  function HeightAll(edges: seq<Request>): nat
    decreases edges
  {
    if edges == [] then 0
    else Max(HeightOfEdge(edges[0]), HeightAll(edges[1..]))
  }

  function HeightOfEdge(r: Request): nat
    decreases r
  {
    match r
    case Omitted(_) => 0
    case With(_, child) => Height(child)
  }

  lemma {:induction false} HeightOfRequest(edges: seq<Request>, k: nat)
    requires k < |edges| && edges[k].With?
    ensures Height(edges[k].child) <= HeightAll(edges)
  {
    if k > 0 {
      assert edges[1..][k - 1] == edges[k];
      HeightOfRequest(edges[1..], k - 1);
    }
  }

  /** A nil limit and a limit of zero give the same specification: no LIMIT clause. */
  function OrZero(n: Option<nat>): nat { if n.Some? then n.value else 0 }
  function SpecLimit(q: Query): nat { OrZero(q.limit) }
  function SpecOffset(q: Query): nat { OrZero(q.offset) }
  predicate Unpaged(q: Query) { SpecLimit(q) == 0 && SpecOffset(q) == 0 }

  function Page<T>(rows: seq<T>, limit: nat, offset: nat): seq<T> {
    var rest := if offset <= |rows| then rows[offset..] else [];
    if 0 < limit < |rest| then rest[..limit] else rest
  }

  /** The fields of the child query: a one-to-many loader adds its foreign key to a non-empty selection. */
  function ChildFields(e: Edge, child: Query): seq<Col> {
    if e.O2M? && child.fields != [] then AddOnce(child.fields, e.column) else child.fields
  }

  predicate ToMany(e: Edge) { e.M2M? || e.O2M? }

  /** What the schema and the database's constraints promise about a query tree, and what eager loading
      asks of it: the many sides start from an entity with an ID, keys are primary keys, a foreign key
      that is not nullable is present, and no child query is paged. */
  ghost predicate WellFormed(db: Database, q: Query)
    decreases q
  {
    && (q.keyed ==> Keyed(Rows(db, q.table)))
    && forall k :: 0 <= k < |q.edges| && q.edges[k].With? ==>
         EdgeOk(db, q, q.edges[k].edge, q.edges[k].child) && WellFormed(db, q.edges[k].child)
  }

  ghost predicate EdgeOk(db: Database, q: Query, e: Edge, child: Query) {
    && Unpaged(child)
    && (ToMany(e) ==> q.keyed)
    && (!e.O2M? ==> child.keyed)
    && (!e.M2M? ==> e.column != ID_COLUMN)
    && (e.M2O? && !e.nullable ==> forall r :: r in Rows(db, q.table) ==> e.column in r.cols)
    && (e.O2M? && !e.nullable ==> forall c :: c in Rows(db, child.table) ==> e.column in c.cols)
  }

  /** The rows on the far side of an edge for the parent row `r`. */
  function ChildRows(db: Database, e: Edge, child: Query, r: Row): set<Row> {
    match e
    case M2M(join) => set c | c in Matching(db, child) && Link(r.id, c.id) in Links(db, join)
    case M2O(col, nullable) => set c | c in Matching(db, child) && Fk(r, col, nullable) == Some(c.id)
    case O2M(col, nullable) => set c | c in Matching(db, child) && Fk(c, col, nullable) == Some(r.id)
  }
}
