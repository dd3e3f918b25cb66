/** Chains of edge traversals such as `QueryGroups().QueryAccounts()`. The builder of a step stores a closure
    over the builder it starts from; evaluating the last builder evaluates all of them through the closures,
    each time with what the builders hold at that moment. */
module Traversal {
  import opened Options
  import opened Graph
  import opened Listing

  /** A row of a join: the rows it was put together from, that of the last table last. */
  type Tuple = seq<Row>

  function Last(t: Tuple): Row { if |t| == 0 then Row(0, map[]) else t[|t| - 1] }

  function ByLast(rank: Row -> int): Tuple -> int { t => rank(Last(t)) }

  function Lasts(ts: set<Tuple>): set<Row> { set t | t in ts :: Last(t) }

  function Singles(rows: set<Row>): set<Tuple> { set r | r in rows :: [r] }

  function Filtered(ts: set<Tuple>, ps: seq<Pred>): set<Tuple> { set t | t in ts && SatisfiesAll(ps, Last(t)) }

  // ---- What a chain means ----

  /** Whether an edge leads from the row `r` to the row `c`. */
  predicate Neighbour(db: Database, e: Edge, r: Row, c: Row) {
    match e
    case M2M(join) => Link(r.id, c.id) in Links(db, join)
    case M2O(col, _) => col in r.cols && r.cols[col] == c.id
    case O2M(col, _) => col in c.cols && c.cols[col] == r.id
  }

  /** A traversal follows an edge to the rows that eager loading loads over it. */
  lemma SameEdge(db: Database, e: Edge, child: Query, r: Row, c: Row)
    requires e.M2O? && !e.nullable ==> e.column in r.cols
    requires e.O2M? && !e.nullable ==> e.column in c.cols
    ensures c in ChildRows(db, e, child, r) <==> c in Matching(db, child) && Neighbour(db, e, r, c)
  {
  }

  datatype Origin = WholeTable | Via(parent: Plan, edge: Edge)

  /** The value of a builder together with those it starts from. */
  datatype Plan = Plan(
    table: Table,
    preds: seq<Pred>,
    rank: Row -> int,
    limit: Option<nat>,
    offset: Option<nat>,
    unique: Option<bool>,
    origin: Origin)

  /** The rows a chain is about: the relational image, step by step, cut down by the predicates of each step. */
  ghost function Image(db: Database, p: Plan): set<Row>
    decreases p
  {
    match p.origin
    case WholeTable => set r | r in Rows(db, p.table) && SatisfiesAll(p.preds, r)
    case Via(parent, e) =>
      set c | c in Rows(db, p.table) && SatisfiesAll(p.preds, c) && exists r :: r in Image(db, parent) && Neighbour(db, e, r, c)
  }

  /** One way through the chain. */
  ghost predicate IsPath(db: Database, p: Plan, t: Tuple)
    decreases p
  {
    && |t| > 0
    && Last(t) in Rows(db, p.table)
    && SatisfiesAll(p.preds, Last(t))
    && match p.origin
       case WholeTable => |t| == 1
       case Via(parent, e) => IsPath(db, parent, t[..|t| - 1]) && Neighbour(db, e, Last(t[..|t| - 1]), Last(t))
  }

  /** No step before the last is cut by a limit or an offset. */
  predicate StepsWhole(p: Plan) {
    match p.origin
    case WholeTable => true
    case Via(parent, _) => parent.limit.None? && parent.offset.None? && StepsWhole(parent)
  }

  /** No foreign key is the ID column. */
  predicate EdgeColumnOk(e: Edge) { e.M2O? ==> e.column != ID_COLUMN }

  predicate EdgesOk(p: Plan) { p.origin.Via? ==> EdgeColumnOk(p.origin.edge) && EdgesOk(p.origin.parent) }

  /** No step before the last asks for distinct rows. */
  predicate StepsPlain(p: Plan) {
    match p.origin
    case WholeTable => true
    case Via(parent, _) => parent.unique != Some(true) && StepsPlain(parent)
  }

  // ---- Selectors ----

  /** A SELECT over a table or a join, with the clauses set on it so far. */
  datatype Selection = Selection(
    tuples: set<Tuple>, distinct: bool, preds: seq<Pred>, rank: Row -> int, limit: Option<nat>, offset: nat)

  const NO_ORDER: Row -> int := _ => 0

  function Plain(ts: set<Tuple>): Selection { Selection(ts, false, [], NO_ORDER, None, 0) }

  /** What sqlQuery makes of the selector it starts from. */
  function Clauses(p: Plan, ts: set<Tuple>): Selection {
    Selection(ts, p.unique == Some(true), p.preds, p.rank,
              LimitClause(p.limit, p.offset, None), OrZero(p.offset))
  }

  /** The value selected from a row. */
  function Read(r: Row, col: Col): Option<ID> {
    if col == ID_COLUMN then Some(r.id) else if col in r.cols then Some(r.cols[col]) else None
  }

  /** The column of the near side that a step joins on. */
  function NearColumn(e: Edge): Col { if e.M2O? then e.column else ID_COLUMN }

  function Cut<T>(all: seq<T>, limit: Option<nat>, offset: nat): seq<T> {
    var rest := if offset <= |all| then all[offset..] else [];
    if limit.Some? && limit.value < |rest| then rest[..limit.value] else rest
  }

  /** One tuple for each value of the column. */
  ghost predicate Represent(col: Col, ts: set<Tuple>, reps: set<Tuple>) {
    && reps <= ts
    && (forall t :: t in ts ==> exists u :: u in reps && Read(Last(u), col) == Read(Last(t), col))
    && (forall t, u :: t in reps && u in reps && Read(Last(t), col) == Read(Last(u), col) ==> t == u)
  }

  /** The tuples that "select col" keeps, before ordering and paging. */
  ghost predicate Selects(s: Selection, col: Col, ts: set<Tuple>) {
    if s.distinct then Represent(col, Filtered(s.tuples, s.preds), ts) else ts == Filtered(s.tuples, s.preds)
  }

  ghost predicate RunOf(s: Selection, col: Col, reps: set<Tuple>, all: seq<Tuple>, ts: seq<Tuple>) {
    Selects(s, col, reps) && Answer(all, reps, ByLast(s.rank)) && ts == Cut(all, s.limit, s.offset)
  }

  /** `ts` is a possible result of "select col". */
  ghost predicate Runs(s: Selection, col: Col, ts: seq<Tuple>) {
    exists reps, all :: RunOf(s, col, reps, all, ts)
  }

  /** The join of selected tuples with the far side of an edge. */
  function Extended(db: Database, ts: seq<Tuple>, e: Edge, table: Table): set<Tuple> {
    set t, c | t in ts && c in Rows(db, table) && Neighbour(db, e, Last(t), c) :: t + [c]
  }

  /** One step: what the near selector keeps of its tuples, joined with the far side. */
  ghost predicate Steps(db: Database, p: Plan, up: set<Tuple>, kept: seq<Tuple>, ts: set<Tuple>) {
    && p.origin.Via?
    && Runs(Clauses(p.origin.parent, up), NearColumn(p.origin.edge), kept)
    && ts == Extended(db, kept, p.origin.edge, p.table)
  }

  /** `ts` are possible tuples of the selector that the builder `p` starts from. */
  ghost predicate Source(db: Database, p: Plan, ts: set<Tuple>)
    decreases p
  {
    match p.origin
    case WholeTable => ts == Singles(Rows(db, p.table))
    case Via(parent, e) => exists up, kept :: Source(db, parent, up) && Steps(db, p, up, kept, ts)
  }

  /** The rule of querySpec: what was asked for, else distinct rows after a traversal. */
  predicate FinalUnique(p: Plan) { if p.unique.Some? then p.unique.value else p.origin.Via? }

  /** `rows` is a possible result of the node query over the given tuples. */
  ghost predicate Fetches(ts: set<Tuple>, unique: bool, rank: Row -> int, limit: nat, offset: nat, rows: seq<Row>) {
    if unique then
      exists all :: Answer(all, Lasts(ts), rank) && rows == Page(all, limit, offset)
    else
      exists all :: Answer(all, ts, ByLast(rank)) && rows == LastOfEach(Page(all, limit, offset))
  }

  function LastOfEach(ts: seq<Tuple>): seq<Row> { seq(|ts|, i requires 0 <= i < |ts| => Last(ts[i])) }

  /** `rows` is a possible result of evaluating the chain. */
  ghost predicate Outcome(db: Database, p: Plan, rows: seq<Row>) {
    exists ts :: Source(db, p, ts) &&
      Fetches(Filtered(ts, p.preds), FinalUnique(p), p.rank, OrZero(p.limit), OrZero(p.offset), rows)
  }

  /** `ids` is a possible result of selecting the IDs. */
  ghost predicate IdOutcome(db: Database, p: Plan, ids: seq<ID>) {
    exists ts, kept :: Source(db, p, ts) && Runs(Clauses(p, ts), ID_COLUMN, kept) && ids == IdsOf(kept)
  }

  function IdsOf(ts: seq<Tuple>): seq<ID> { seq(|ts|, i requires 0 <= i < |ts| => Last(ts[i]).id) }

  // ---- The database engine ----

  lemma RepresentOneMore(col: Col, ts: set<Tuple>, reps: set<Tuple>, t: Tuple)
    requires Represent(col, ts, reps)
    ensures var known := exists u :: u in reps && Read(Last(u), col) == Read(Last(t), col);
      Represent(col, ts + {t}, if known then reps else reps + {t})
  {
    assert t in reps + {t};
  }

  method Representatives(col: Col, ts: set<Tuple>) returns (reps: set<Tuple>)
    ensures Represent(col, ts, reps)
  {
    reps := {};
    var todo := ts;
    while todo != {}
      invariant todo <= ts && Represent(col, ts - todo, reps)
      decreases todo
    {
      var t :| t in todo;
      RepresentOneMore(col, ts - todo, reps, t);
      assert ts - (todo - {t}) == ts - todo + {t};
      if !exists u :: u in reps && Read(Last(u), col) == Read(Last(t), col) {
        reps := reps + {t};
      }
      todo := todo - {t};
    }
    assert ts - {} == ts;
  }

  method RunSelector(s: Selection, col: Col) returns (ts: seq<Tuple>)
    ensures Runs(s, col, ts)
  {
    var reps := Filtered(s.tuples, s.preds);
    if s.distinct {
      reps := Representatives(col, reps);
    }
    var all := Sorted(reps, ByLast(s.rank));
    ts := Cut(all, s.limit, s.offset);
    assert RunOf(s, col, reps, all, ts);
  }

  /** The selector over the neighbours: a join with the rows that the near selector gives. */
  method SetNeighbors(db: Database, near: Selection, e: Edge, table: Table) returns (s: Selection)
    ensures exists kept :: Runs(near, NearColumn(e), kept) && s == Plain(Extended(db, kept, e, table))
  {
    var kept := RunSelector(near, NearColumn(e));
    s := Plain(Extended(db, kept, e, table));
  }

  method FetchNodes(ts: set<Tuple>, unique: bool, rank: Row -> int, limit: nat, offset: nat) returns (rows: seq<Row>)
    ensures Fetches(ts, unique, rank, limit, offset, rows)
  {
    if unique {
      var all := Sorted(Lasts(ts), rank);
      rows := Page(all, limit, offset);
    } else {
      var all := Sorted(ts, ByLast(rank));
      rows := LastOfEach(Page(all, limit, offset));
    }
  }

  lemma IdsOfRun(db: Database, p: Plan, ts: set<Tuple>, kept: seq<Tuple>)
    requires Source(db, p, ts) && Runs(Clauses(p, ts), ID_COLUMN, kept)
    ensures IdOutcome(db, p, IdsOf(kept))
  {
  }

  // ---- The builders ----

  class ChainQuery {
    const table: Table
    /** What the path closure captures: the builder of the step before, if any, and the edge. */
    const from: ChainQuery?
    const via: Edge
    ghost const chain: set<ChainQuery>
    var fields: seq<Col>
    var preds: seq<Pred>
    var rank: Row -> int
    var limit: Option<nat>
    var offset: Option<nat>
    var unique: Option<bool>
    var sql: Option<Selection>

    ghost predicate Valid()
      decreases chain
    {
      this in chain && (from != null ==> from.chain == chain - {this} && from.Valid())
    }

    ghost function AsPlan(): Plan
      requires Valid()
      reads chain`preds, chain`rank, chain`limit, chain`offset, chain`unique
      decreases chain
    {
      Plan(table, preds, rank, limit, offset, unique, if from == null then WholeTable else Via(from.AsPlan(), via))
    }

    /** Only builders that start from another one are ever given an intermediate selector. */
    ghost predicate Clean()
      reads chain`sql
    {
      forall q :: q in chain && q.from == null ==> q.sql == None
    }

    /** A new query of an entity client. */
    constructor (table: Table)
      ensures Valid() && chain == {this} && Clean() && fields == []
      ensures AsPlan() == Plan(table, [], NO_ORDER, None, None, None, WholeTable)
    {
      this.table, from, via, chain := table, null, M2M(""), {this};
      fields, preds, rank, limit, offset, unique, sql := [], [], NO_ORDER, None, None, None, None;
    }

    /** A new query on an edge of `near`, which is only captured: nothing is evaluated, nothing copied. */
    constructor On(near: ChainQuery, via: Edge, table: Table)
      requires near.Valid() && near.Clean()
      ensures Valid() && chain == near.chain + {this} && Clean() && fields == []
      ensures AsPlan() == Plan(table, [], NO_ORDER, None, None, None, Via(near.AsPlan(), via))
    {
      this.table, this.via, from, chain := table, via, near, near.chain + {this};
      fields, preds, rank, limit, offset, unique, sql := [], [], NO_ORDER, None, None, None, None;
    }

    /** Evaluates the steps before this one and keeps the selector over their neighbours. */
    method PrepareQuery(db: Database)
      requires Valid() && Clean()
      modifies chain`sql
      ensures Clean()
      ensures exists ts :: Source(db, AsPlan(), ts) && sql == if from == null then None else Some(Plain(ts))
      decreases chain, 1
    {
      if from != null {
        var prev := Path(db);
        sql := Some(prev);
      } else {
        assert Source(db, AsPlan(), Singles(Rows(db, table)));
      }
    }

    /** The path closure. */
    method Path(db: Database) returns (prev: Selection)
      requires Valid() && Clean() && from != null
      modifies from.chain`sql
      ensures Clean()
      ensures exists ts :: Source(db, AsPlan(), ts) && prev == Plain(ts)
      decreases chain, 0
    {
      from.PrepareQuery(db);
      ghost var up :| Source(db, from.AsPlan(), up) && from.sql == if from.from == null then None else Some(Plain(up));
      var selector := from.SqlQuery(db, up);
      prev := SetNeighbors(db, selector, via, table);
      ghost var kept :| Runs(selector, NearColumn(via), kept) && prev == Plain(Extended(db, kept, via, table));
      assert Steps(db, AsPlan(), up, kept, Extended(db, kept, via, table));
    }

    /** Puts the clauses of the builder on its intermediate selector, in place, or on one over its table. */
    method SqlQuery(db: Database, ghost ts: set<Tuple>) returns (selector: Selection)
      requires Valid() && Clean() && sql == if from == null then None else Some(Plain(ts))
      requires from == null ==> ts == Singles(Rows(db, table))
      modifies this`sql
      ensures Clean() && selector == Clauses(AsPlan(), ts)
    {
      selector := Plain(Singles(Rows(db, table)));
      if sql.Some? {
        selector := sql.value;
      }
      if unique.Some? && unique.value {
        selector := selector.(distinct := true);
      }
      selector := selector.(preds := selector.preds + preds, rank := rank);
      if offset.Some? {
        selector := selector.(offset := offset.value, limit := Some(MAX_INT32));
      }
      if limit.Some? {
        selector := selector.(limit := limit);
      }
      if sql.Some? {
        sql := Some(selector);
      }
      assert [] + preds == preds;
    }

    /** Runs the chain and scans the selected fields of its rows. The only lasting effect is on the intermediate
        selectors, which the next run replaces. */
    method All(db: Database) returns (rows: seq<Row>)
      requires Valid() && Clean()
      modifies chain`sql
      ensures Clean() && exists full :: Outcome(db, AsPlan(), full) && rows == ProjectEach(full, fields) && (unique != Some(false) ==> NoRepeats(full))
    {
      PrepareQuery(db);
      var ts := if sql.Some? then sql.value.tuples else Singles(Rows(db, table));
      assert Source(db, AsPlan(), ts);
      var distinct := if unique.Some? then unique.value else from != null;
      var full := FetchNodes(Filtered(ts, preds), distinct, rank, OrZero(limit), OrZero(offset));
      assert Outcome(db, AsPlan(), full);
      if unique != Some(false) {
        ghost var _ := DistinctByDefault(db, AsPlan(), full);
      }
      rows := ProjectEach(full, fields);
    }

    /** Runs the chain for the IDs. Two things stay in the builder: the default for distinct rows, and the ID
        column among the selected fields. So a builder with selected fields, for example one that was asked for
        its IDs before, selects more than one column, which cannot be scanned into a list of IDs. */
    method IDs(db: Database) returns (ids: Option<seq<ID>>)
      requires Valid() && Clean()
      modifies chain`sql, this`unique, this`fields
      ensures Clean() && unique == if old(unique).None? && from != null then Some(true) else old(unique)
      ensures AsPlan() == old(AsPlan()).(unique := unique) && fields == old(fields) + [ID_COLUMN]
      ensures ids.Some? <==> old(fields) == []
      ensures ids.Some? ==> IdOutcome(db, AsPlan(), ids.value)
    {
      if unique.None? && from != null {
        unique := Some(true);
        assert from.AsPlan() == old(from.AsPlan());
      }
      fields := fields + [ID_COLUMN];
      ids := ScanIDs(db);
    }

    method ScanIDs(db: Database) returns (ids: Option<seq<ID>>)
      requires Valid() && Clean() && fields != [] && fields[|fields| - 1] == ID_COLUMN
      modifies chain`sql
      ensures Clean() && (ids.Some? <==> |fields| == 1)
      ensures ids.Some? ==> IdOutcome(db, AsPlan(), ids.value)
    {
      PrepareQuery(db);
      ghost var ts :| Source(db, AsPlan(), ts) && sql == if from == null then None else Some(Plain(ts));
      var selector := SqlQuery(db, ts);
      if |fields| > 1 {
        return None;
      }
      var kept := RunSelector(selector, fields[0]);
      IdsOfRun(db, AsPlan(), ts, kept);
      ids := Some(IdsOf(kept));
    }

    /** Succeeds when there is exactly one row. The limit replaces the one of the builder, and stays. */
    method OnlyID(db: Database) returns (r: Single)
      requires Valid() && Clean()
      modifies chain`sql, this`unique, this`fields, this`limit
      ensures Clean() && AsPlan() == old(AsPlan()).(limit := Some(2), unique := unique) && fields == old(fields) + [ID_COLUMN]
      ensures unique == if old(unique).None? && from != null then Some(true) else old(unique)
      ensures if old(fields) == [] then exists ids :: IdOutcome(db, AsPlan(), ids) && r == SingleOf(ids) else r == ScanFailed
    {
      limit := Some(2);
      assert from != null ==> from.AsPlan() == old(from.AsPlan());
      var ids := IDs(db);
      if ids.None? {
        return ScanFailed;
      }
      r := match |ids.value| case 1 => Found(ids.value[0]) case 0 => NotFound case _ => NotSingular;
    }
  }

  function ProjectEach(rows: seq<Row>, fields: seq<Col>): seq<Row> {
    seq(|rows|, i requires 0 <= i < |rows| => Project(rows[i], true, fields, []))
  }

  datatype Single = Found(id: ID) | NotFound | NotSingular | ScanFailed

  function SingleOf(ids: seq<ID>): Single {
    if |ids| == 0 then NotFound else if |ids| == 1 then Found(ids[0]) else NotSingular
  }

  // ---- What evaluation gives ----

  lemma CutKeeps<T>(all: seq<T>, limit: Option<nat>, offset: nat)
    ensures forall t :: t in Cut(all, limit, offset) ==> t in all
    ensures limit.None? && offset == 0 ==> Cut(all, limit, offset) == all
  {
  }

  lemma SelectsCovers(s: Selection, col: Col, reps: set<Tuple>, t: Tuple) returns (u: Tuple)
    requires Selects(s, col, reps) && t in Filtered(s.tuples, s.preds)
    ensures reps <= Filtered(s.tuples, s.preds)
    ensures u in reps && Read(Last(u), col) == Read(Last(t), col) && (!s.distinct ==> u == t)
  {
    u := t;
    if s.distinct {
      u :| u in reps && Read(Last(u), col) == Read(Last(t), col);
    }
  }

  lemma RunKeeps(s: Selection, col: Col, ts: seq<Tuple>, t: Tuple)
    requires Runs(s, col, ts) && t in ts
    ensures t in s.tuples && SatisfiesAll(s.preds, Last(t))
  {
    var reps, all :| RunOf(s, col, reps, all, ts);
    CutKeeps(all, s.limit, s.offset);
    assert t in all;
    assert t in reps;
    assert t in Filtered(s.tuples, s.preds);
  }

  /** Uncut, a selector keeps every value of its column, and every tuple unless it asks for distinct values. */
  lemma RunCovers(s: Selection, col: Col, ts: seq<Tuple>, t: Tuple) returns (u: Tuple)
    requires Runs(s, col, ts) && s.limit.None? && s.offset == 0 && t in Filtered(s.tuples, s.preds)
    ensures u in ts && Read(Last(u), col) == Read(Last(t), col) && (!s.distinct ==> u == t)
  {
    var reps, all :| RunOf(s, col, reps, all, ts);
    CutKeeps(all, s.limit, s.offset);
    u := SelectsCovers(s, col, reps, t);
    assert u in all;
  }

  /** Whatever is asked of the steps, every tuple is a way through the chain. */
  lemma {:induction false} TuplesArePaths(db: Database, p: Plan, ts: set<Tuple>)
    requires Source(db, p, ts)
    ensures forall t :: t in Filtered(ts, p.preds) ==> IsPath(db, p, t)
    decreases p
  {
    match p.origin
    case WholeTable =>
    case Via(parent, e) =>
      var up, kept :| Source(db, parent, up) && Steps(db, p, up, kept, ts);
      TuplesArePaths(db, parent, up);
      forall t | t in Filtered(ts, p.preds) ensures IsPath(db, p, t) {
        var near, c :| near in kept && c in Rows(db, p.table) && Neighbour(db, e, Last(near), c) && t == near + [c];
        RunKeeps(Clauses(parent, up), NearColumn(e), kept, near);
        assert t[..|t| - 1] == near;
      }
  }

  lemma JoinedTuple(db: Database, kept: seq<Tuple>, e: Edge, table: Table, ps: seq<Pred>, near: Tuple, c: Row)
    requires near in kept && c in Rows(db, table) && Neighbour(db, e, Last(near), c) && SatisfiesAll(ps, c)
    ensures near + [c] in Filtered(Extended(db, kept, e, table), ps)
  {
    assert near + [c] in Extended(db, kept, e, table);
    assert Last(near + [c]) == c;
  }

  lemma StepKeepsTuple(db: Database, p: Plan, up: set<Tuple>, kept: seq<Tuple>, ts: set<Tuple>, near: Tuple, c: Row)
    requires Steps(db, p, up, kept, ts) && near in Filtered(up, p.origin.parent.preds)
    requires p.origin.parent.limit.None? && p.origin.parent.offset.None? && p.origin.parent.unique != Some(true)
    requires c in Rows(db, p.table) && SatisfiesAll(p.preds, c) && Neighbour(db, p.origin.edge, Last(near), c)
    ensures near + [c] in Filtered(ts, p.preds)
  {
    var u := RunCovers(Clauses(p.origin.parent, up), NearColumn(p.origin.edge), kept, near);
    JoinedTuple(db, kept, p.origin.edge, p.table, p.preds, near, c);
  }

  /** When no step is cut or made distinct, the tuples are all ways through the chain. */
  lemma {:induction false} PathsAreTuples(db: Database, p: Plan, ts: set<Tuple>, t: Tuple)
    requires Source(db, p, ts) && StepsWhole(p) && StepsPlain(p) && IsPath(db, p, t)
    ensures t in Filtered(ts, p.preds)
    decreases p
  {
    match p.origin
    case WholeTable =>
      SingleTuple(db, p, ts, t);
    case Via(parent, e) =>
      var up, kept :| Source(db, parent, up) && Steps(db, p, up, kept, ts);
      var near, c := PathParts(db, p, t);
      PathsAreTuples(db, parent, up, near);
      StepKeepsTuple(db, p, up, kept, ts, near, c);
  }

  lemma SingleTuple(db: Database, p: Plan, ts: set<Tuple>, t: Tuple)
    requires p.origin.WholeTable? && Source(db, p, ts) && IsPath(db, p, t)
    ensures t in Filtered(ts, p.preds)
  {
    assert t == [Last(t)];
  }

  lemma PathParts(db: Database, p: Plan, t: Tuple) returns (near: Tuple, c: Row)
    requires p.origin.Via? && IsPath(db, p, t)
    ensures t == near + [c] && IsPath(db, p.origin.parent, near)
    ensures c in Rows(db, p.table) && SatisfiesAll(p.preds, c) && Neighbour(db, p.origin.edge, Last(near), c)
  {
    near, c := t[..|t| - 1], Last(t);
  }

  lemma SameNeighbours(db: Database, e: Edge, r: Row, s: Row, c: Row)
    requires Read(r, NearColumn(e)) == Read(s, NearColumn(e)) && EdgeColumnOk(e)
    ensures Neighbour(db, e, r, c) == Neighbour(db, e, s, c)
  {
  }

  lemma StepIntoImage(db: Database, p: Plan, up: set<Tuple>, kept: seq<Tuple>, ts: set<Tuple>, c: Row)
    requires Steps(db, p, up, kept, ts)
    requires Lasts(Filtered(up, p.origin.parent.preds)) <= Image(db, p.origin.parent)
    requires c in Lasts(Filtered(ts, p.preds))
    ensures c in Image(db, p)
  {
    var parent, e := p.origin.parent, p.origin.edge;
    var near, c' :| near in kept && c' in Rows(db, p.table) && Neighbour(db, e, Last(near), c') && Last(near + [c']) == c;
    RunKeeps(Clauses(parent, up), NearColumn(e), kept, near);
    assert near in Filtered(up, parent.preds);
    assert Last(near) in Lasts(Filtered(up, parent.preds));
  }

  lemma StepCoversImage(db: Database, p: Plan, up: set<Tuple>, kept: seq<Tuple>, ts: set<Tuple>, c: Row)
    requires Steps(db, p, up, kept, ts)
    requires p.origin.parent.limit.None? && p.origin.parent.offset.None? && EdgeColumnOk(p.origin.edge)
    requires Image(db, p.origin.parent) <= Lasts(Filtered(up, p.origin.parent.preds))
    requires c in Image(db, p)
    ensures c in Lasts(Filtered(ts, p.preds))
  {
    var parent, e := p.origin.parent, p.origin.edge;
    var r :| r in Image(db, parent) && Neighbour(db, e, r, c);
    var t :| t in Filtered(up, parent.preds) && Last(t) == r;
    var near := RunCovers(Clauses(parent, up), NearColumn(e), kept, t);
    SameNeighbours(db, e, r, Last(near), c);
    JoinedTuple(db, kept, e, p.table, p.preds, near, c);
    assert Last(near + [c]) == c;
  }

  /** When no step is cut, the last rows are the relational image. Asking a step for distinct rows drops
      tuples, but only those whose neighbours another one has. */
  lemma {:induction false} LastsAreImage(db: Database, p: Plan, ts: set<Tuple>)
    requires Source(db, p, ts) && StepsWhole(p) && EdgesOk(p)
    ensures Lasts(Filtered(ts, p.preds)) == Image(db, p)
    decreases p
  {
    match p.origin
    case WholeTable =>
      forall r | r in Image(db, p) ensures r in Lasts(Filtered(ts, p.preds)) {
        assert [r] in ts && Last([r]) == r;
      }
    case Via(parent, e) =>
      var up, kept :| Source(db, parent, up) && Steps(db, p, up, kept, ts);
      LastsAreImage(db, parent, up);
      forall c | c in Lasts(Filtered(ts, p.preds)) ensures c in Image(db, p) {
        StepIntoImage(db, p, up, kept, ts, c);
      }
      forall c | c in Image(db, p) ensures c in Lasts(Filtered(ts, p.preds)) {
        StepCoversImage(db, p, up, kept, ts, c);
      }
  }

  /** Tuples of one table have different last rows. */
  lemma SinglesAnswer(db: Database, p: Plan, ts: set<Tuple>, all: seq<Tuple>)
    requires p.origin.WholeTable? && Source(db, p, ts) && Answer(all, Filtered(ts, p.preds), ByLast(p.rank))
    ensures Answer(LastOfEach(all), Lasts(Filtered(ts, p.preds)), p.rank)
  {
    forall t | t in all ensures t == [Last(t)] {
      assert t in ts;
    }
    forall r ensures r in LastOfEach(all) <==> r in Lasts(Filtered(ts, p.preds)) {
      LastOfEachMember(all, r);
    }
    forall i, j | 0 <= i < j < |all| ensures LastOfEach(all)[i] != LastOfEach(all)[j] {
      assert all[i] in all && all[j] in all;
    }
  }

  lemma PageOfLasts(all: seq<Tuple>, limit: nat, offset: nat)
    ensures LastOfEach(Page(all, limit, offset)) == Page(LastOfEach(all), limit, offset)
  {
  }

  /** After a traversal, the rows of an outcome are a page of different rows, unless distinct rows are switched off;
      without a traversal they always are. */
  lemma DistinctByDefault(db: Database, p: Plan, rows: seq<Row>) returns (ts: set<Tuple>)
    requires p.unique != Some(false) || p.origin.WholeTable?
    requires Outcome(db, p, rows)
    ensures Source(db, p, ts) && PageOfAnswer(rows, Lasts(Filtered(ts, p.preds)), p.rank, p.limit, p.offset)
    ensures forall i, j :: 0 <= i < j < |rows| ==> rows[i] != rows[j]
  {
    ts :| Source(db, p, ts) &&
      Fetches(Filtered(ts, p.preds), FinalUnique(p), p.rank, OrZero(p.limit), OrZero(p.offset), rows);
    var lasts: seq<Row>;
    if FinalUnique(p) {
      lasts :| Answer(lasts, Lasts(Filtered(ts, p.preds)), p.rank) && rows == Page(lasts, OrZero(p.limit), OrZero(p.offset));
    } else {
      var all :| Answer(all, Filtered(ts, p.preds), ByLast(p.rank)) && rows == LastOfEach(Page(all, OrZero(p.limit), OrZero(p.offset)));
      SinglesAnswer(db, p, ts, all);
      PageOfLasts(all, OrZero(p.limit), OrZero(p.offset));
      lasts := LastOfEach(all);
    }
    PageExact(lasts, Lasts(Filtered(ts, p.preds)), p.rank, p.limit, p.offset);
  }

  /** A whole chain gives its relational image, in order, without duplicates: after a traversal that is the
      default, unless distinct rows are switched off. */
  lemma ImageOnce(db: Database, p: Plan, rows: seq<Row>)
    requires StepsWhole(p) && EdgesOk(p) && Outcome(db, p, rows)
    requires p.unique != Some(false) || p.origin.WholeTable?
    ensures PageOfAnswer(rows, Image(db, p), p.rank, p.limit, p.offset)
    ensures forall i, j :: 0 <= i < j < |rows| ==> rows[i] != rows[j]
  {
    var ts := DistinctByDefault(db, p, rows);
    LastsAreImage(db, p, ts);
  }

  /** Cut or not, a chain gives no row that is not in its image. */
  lemma {:induction false} PathEndsInImage(db: Database, p: Plan, t: Tuple)
    requires IsPath(db, p, t)
    ensures Last(t) in Image(db, p)
    decreases p
  {
    if p.origin.Via? {
      PathEndsInImage(db, p.origin.parent, t[..|t| - 1]);
    }
  }

  lemma FetchedIsLast(ts: set<Tuple>, unique: bool, rank: Row -> int, limit: nat, offset: nat, rows: seq<Row>, r: Row)
    returns (t: Tuple)
    requires Fetches(ts, unique, rank, limit, offset, rows) && r in rows
    ensures t in ts && Last(t) == r
  {
    if unique {
      assert r in Lasts(ts);
      t :| t in ts && Last(t) == r;
    } else {
      var all :| Answer(all, ts, ByLast(rank)) && rows == LastOfEach(Page(all, limit, offset));
      var i :| 0 <= i < |rows| && rows[i] == r;
      t := Page(all, limit, offset)[i];
      assert t in all;
    }
  }

  lemma OnlyImage(db: Database, p: Plan, rows: seq<Row>, r: Row)
    requires Outcome(db, p, rows) && r in rows
    ensures r in Image(db, p)
  {
    var ts :| Source(db, p, ts) &&
      Fetches(Filtered(ts, p.preds), FinalUnique(p), p.rank, OrZero(p.limit), OrZero(p.offset), rows);
    TuplesArePaths(db, p, ts);
    var t := FetchedIsLast(Filtered(ts, p.preds), FinalUnique(p), p.rank, OrZero(p.limit), OrZero(p.offset), rows, r);
    PathEndsInImage(db, p, t);
  }

  /** Without distinct rows, the result has one row for each way through the chain: the row in which it ends. The
      ways come in order, cut by offset and limit. */
  lemma PathsListed(db: Database, p: Plan, rows: seq<Row>) returns (all: seq<Tuple>)
    requires StepsWhole(p) && StepsPlain(p) && Outcome(db, p, rows)
    requires p.unique == Some(false) || (p.unique == None && p.origin.WholeTable?)
    ensures forall i, j :: 0 <= i < j < |all| ==> all[i] != all[j]
    ensures forall t :: t in all <==> IsPath(db, p, t)
    ensures Ordered(all, ByLast(p.rank))
    ensures var skip := match p.offset case None => 0 case Some(o) => o;
      var rest := if skip < |all| then |all| - skip else 0;
      && |rows| == (match p.limit case None => rest case Some(n) => if 0 < n < rest then n else rest)
      && forall i :: 0 <= i < |rows| ==> rows[i] == Last(all[skip + i])
  {
    var ts :| Source(db, p, ts) &&
      Fetches(Filtered(ts, p.preds), FinalUnique(p), p.rank, OrZero(p.limit), OrZero(p.offset), rows);
    all :| Answer(all, Filtered(ts, p.preds), ByLast(p.rank)) &&
      rows == LastOfEach(Page(all, OrZero(p.limit), OrZero(p.offset)));
    AllPaths(db, p, ts, all);
    LastsOfPage(all, p.limit, p.offset);
  }

  lemma AllPaths(db: Database, p: Plan, ts: set<Tuple>, all: seq<Tuple>)
    requires StepsWhole(p) && StepsPlain(p) && Source(db, p, ts) && Answer(all, Filtered(ts, p.preds), ByLast(p.rank))
    ensures forall t :: t in all <==> IsPath(db, p, t)
  {
    TuplesArePaths(db, p, ts);
    forall t ensures t in all <==> IsPath(db, p, t) {
      if IsPath(db, p, t) {
        PathsAreTuples(db, p, ts, t);
      }
    }
  }

  lemma LastsOfPage(all: seq<Tuple>, limit: Option<nat>, offset: Option<nat>)
    ensures var rows := LastOfEach(Page(all, OrZero(limit), OrZero(offset)));
      var skip := match offset case None => 0 case Some(o) => o;
      var rest := if skip < |all| then |all| - skip else 0;
      && |rows| == (match limit case None => rest case Some(n) => if 0 < n < rest then n else rest)
      && forall i :: 0 <= i < |rows| ==> rows[i] == Last(all[skip + i])
  {
  }

  /** So there are no duplicates exactly when no two ways end in the same row. */
  lemma DuplicatesExact(db: Database, p: Plan, rows: seq<Row>)
    requires StepsWhole(p) && StepsPlain(p) && OrZero(p.limit) == OrZero(p.offset) == 0
    requires p.unique == Some(false) || (p.unique == None && p.origin.WholeTable?)
    requires Outcome(db, p, rows)
    ensures (forall i, j :: 0 <= i < j < |rows| ==> rows[i] != rows[j]) <==>
      (forall t, u :: IsPath(db, p, t) && IsPath(db, p, u) && Last(t) == Last(u) ==> t == u)
  {
    var all := PathsListed(db, p, rows);
    assert rows == LastOfEach(all);
    SameLasts(all);
  }

  lemma SameLasts(all: seq<Tuple>)
    requires forall i, j :: 0 <= i < j < |all| ==> all[i] != all[j]
    ensures var rows := LastOfEach(all);
      (forall i, j :: 0 <= i < j < |rows| ==> rows[i] != rows[j]) <==>
      (forall t, u :: t in all && u in all && Last(t) == Last(u) ==> t == u)
  {
    var rows := LastOfEach(all);
    if forall i, j :: 0 <= i < j < |rows| ==> rows[i] != rows[j] {
      forall t, u | t in all && u in all && Last(t) == Last(u) ensures t == u {
        var i, j :| 0 <= i < |all| && 0 <= j < |all| && all[i] == t && all[j] == u;
        assert rows[i] == rows[j];
      }
    }
    if forall t, u :: t in all && u in all && Last(t) == Last(u) ==> t == u {
      forall i, j | 0 <= i < j < |rows| ensures rows[i] != rows[j] {
        assert all[i] in all && all[j] in all;
      }
    }
  }

  /** A limit of zero means no limit for the last step, but no rows for a step before. */
  lemma ZeroLimitEndsChain(db: Database, p: Plan, rows: seq<Row>)
    requires p.origin.Via? && p.origin.parent.limit == Some(0) && Outcome(db, p, rows)
    ensures rows == []
  {
    var parent, e := p.origin.parent, p.origin.edge;
    var ts :| Source(db, p, ts) &&
      Fetches(Filtered(ts, p.preds), FinalUnique(p), p.rank, OrZero(p.limit), OrZero(p.offset), rows);
    var up, kept :| Source(db, parent, up) && Steps(db, p, up, kept, ts);
    assert kept == [];
    assert Filtered(ts, p.preds) == {};
    if rows != [] {
      var t := FetchedIsLast(Filtered(ts, p.preds), FinalUnique(p), p.rank, OrZero(p.limit), OrZero(p.offset), rows, rows[0]);
    }
  }

  // ---- Selecting the IDs ----

  /** After a traversal, IDs has made sure of this unless distinct rows were switched off. */
  predicate IdsUnique(p: Plan) { p.unique == Some(true) || p.origin.WholeTable? }

  lemma IdsApart(db: Database, p: Plan, ts: set<Tuple>, reps: set<Tuple>)
    requires Source(db, p, ts) && IdsUnique(p) && Selects(Clauses(p, ts), ID_COLUMN, reps) && Keyed(Rows(db, p.table))
    ensures forall t, u :: t in reps && u in reps && Last(t).id == Last(u).id ==> t == u
    ensures forall t :: t in Filtered(ts, p.preds) ==> exists u :: u in reps && Last(u).id == Last(t).id
    ensures reps <= Filtered(ts, p.preds)
  {
    if p.unique == Some(true) {
      forall t, u | t in reps && u in reps && Last(t).id == Last(u).id ensures t == u {
        assert Read(Last(t), ID_COLUMN) == Read(Last(u), ID_COLUMN);
      }
      forall t | t in Filtered(ts, p.preds) ensures exists u :: u in reps && Last(u).id == Last(t).id {
        var u :| u in reps && Read(Last(u), ID_COLUMN) == Read(Last(t), ID_COLUMN);
      }
    }
  }

  /** What offset and limit of a step keep of `n` tuples: an offset brings the limit 2147483647, which a limit of the
      builder replaces, and a limit of zero is a limit. */
  ghost predicate IsCut(kept: nat, n: nat, limit: Option<nat>, offset: Option<nat>) {
    var skip := match offset case None => 0 case Some(o) => o;
    var rest := if skip < n then n - skip else 0;
    kept == match limit
            case Some(l) => if l < rest then l else rest
            case None => if offset.Some? && 2147483647 < rest then 2147483647 else rest
  }

  lemma CutExact<T>(all: seq<T>, p: Plan)
    ensures var s := Clauses(p, {});
      var kept := Cut(all, s.limit, s.offset);
      && IsCut(|kept|, |all|, p.limit, p.offset)
      && IsSlice(kept, all, match p.offset case None => 0 case Some(o) => o)
  {
  }

  /** The IDs selected are those of the image, each once, in order, cut by offset and limit. */
  lemma IdsListed(db: Database, p: Plan, ids: seq<ID>) returns (all: seq<Row>)
    requires StepsWhole(p) && EdgesOk(p) && IdsUnique(p) && Keyed(Rows(db, p.table)) && IdOutcome(db, p, ids)
    ensures Answer(all, Image(db, p), p.rank) && IsCut(|ids|, |Image(db, p)|, p.limit, p.offset)
    ensures var skip := match p.offset case None => 0 case Some(o) => o;
      forall i :: 0 <= i < |ids| ==> skip + i < |all| && ids[i] == all[skip + i].id
  {
    var ts, kept :| Source(db, p, ts) && Runs(Clauses(p, ts), ID_COLUMN, kept) && ids == IdsOf(kept);
    all := RunListed(db, p, ts, kept);
    IdsCut(db, p, all, ids);
  }

  lemma IdsCut(db: Database, p: Plan, all: seq<Row>, ids: seq<ID>)
    requires Answer(all, Image(db, p), p.rank)
    requires var s := Clauses(p, {}); ids == Cut(RowIds(all), s.limit, s.offset)
    ensures IsCut(|ids|, |Image(db, p)|, p.limit, p.offset)
    ensures var skip := match p.offset case None => 0 case Some(o) => o;
      forall i :: 0 <= i < |ids| ==> skip + i < |all| && ids[i] == all[skip + i].id
  {
    AnswerLength(all, Image(db, p), p.rank);
    CutExact(RowIds(all), p);
  }

  /** What a step hands on: of its tuples that satisfy its predicates, all or, with distinct rows, one for each
      value of the column that is selected; in order, cut by offset and limit. */
  lemma StepExact(p: Plan, ts: set<Tuple>, col: Col, kept: seq<Tuple>) returns (reps: set<Tuple>, all: seq<Tuple>)
    requires Runs(Clauses(p, ts), col, kept)
    ensures forall t :: t in reps ==> t in ts && SatisfiesAll(p.preds, Last(t))
    ensures p.unique != Some(true) ==> forall t :: t in ts && SatisfiesAll(p.preds, Last(t)) ==> t in reps
    ensures p.unique == Some(true) ==>
      && (forall t :: t in ts && SatisfiesAll(p.preds, Last(t)) ==> exists u :: u in reps && Read(Last(u), col) == Read(Last(t), col))
      && (forall t, u :: t in reps && u in reps && Read(Last(t), col) == Read(Last(u), col) ==> t == u)
    ensures Answer(all, reps, ByLast(p.rank)) && IsCut(|kept|, |reps|, p.limit, p.offset)
    ensures IsSlice(kept, all, match p.offset case None => 0 case Some(o) => o)
  {
    reps, all :| RunOf(Clauses(p, ts), col, reps, all, kept);
    StepSelects(p, ts, col, reps);
    StepCut(p, ts, col, reps, all, kept);
  }

  lemma StepCut(p: Plan, ts: set<Tuple>, col: Col, reps: set<Tuple>, all: seq<Tuple>, kept: seq<Tuple>)
    requires RunOf(Clauses(p, ts), col, reps, all, kept)
    ensures Answer(all, reps, ByLast(p.rank)) && IsCut(|kept|, |reps|, p.limit, p.offset)
    ensures IsSlice(kept, all, match p.offset case None => 0 case Some(o) => o)
  {
    AnswerLength(all, reps, ByLast(p.rank));
    CutExact(all, p);
  }

  lemma StepSelects(p: Plan, ts: set<Tuple>, col: Col, reps: set<Tuple>)
    requires Selects(Clauses(p, ts), col, reps)
    ensures forall t :: t in reps ==> t in ts && SatisfiesAll(p.preds, Last(t))
    ensures p.unique != Some(true) ==> forall t :: t in ts && SatisfiesAll(p.preds, Last(t)) ==> t in reps
    ensures p.unique == Some(true) ==>
      && (forall t :: t in ts && SatisfiesAll(p.preds, Last(t)) ==> exists u :: u in reps && Read(Last(u), col) == Read(Last(t), col))
      && (forall t, u :: t in reps && u in reps && Read(Last(t), col) == Read(Last(u), col) ==> t == u)
  {
    var all := Filtered(ts, p.preds);
    assert forall t :: t in all <==> t in ts && SatisfiesAll(p.preds, Last(t));
    if p.unique == Some(true) {
      assert Represent(col, all, reps);
    } else {
      assert reps == all;
    }
  }

  lemma RunListed(db: Database, p: Plan, ts: set<Tuple>, kept: seq<Tuple>) returns (all: seq<Row>)
    requires StepsWhole(p) && EdgesOk(p) && IdsUnique(p) && Keyed(Rows(db, p.table))
    requires Source(db, p, ts) && Runs(Clauses(p, ts), ID_COLUMN, kept)
    ensures Answer(all, Image(db, p), p.rank)
    ensures var s := Clauses(p, {}); IdsOf(kept) == Cut(RowIds(all), s.limit, s.offset)
  {
    var s := Clauses(p, ts);
    var reps, tuples :| RunOf(s, ID_COLUMN, reps, tuples, kept);
    IdsApart(db, p, ts, reps);
    LastsAreImage(db, p, ts);
    assert Image(db, p) <= Rows(db, p.table);
    RepresentativesAnswer(tuples, reps, Filtered(ts, p.preds), p.rank);
    all := LastOfEach(tuples);
    CutIds(tuples, s.limit, s.offset);
  }

  lemma CutIds(tuples: seq<Tuple>, limit: Option<nat>, offset: nat)
    ensures IdsOf(Cut(tuples, limit, offset)) == Cut(RowIds(LastOfEach(tuples)), limit, offset)
  {
  }

  lemma RepresentativesAnswer(tuples: seq<Tuple>, reps: set<Tuple>, ts: set<Tuple>, rank: Row -> int)
    requires Answer(tuples, reps, ByLast(rank)) && reps <= ts && Keyed(Lasts(ts))
    requires forall t, u :: t in reps && u in reps && Last(t).id == Last(u).id ==> t == u
    requires forall t :: t in ts ==> exists u :: u in reps && Last(u).id == Last(t).id
    ensures Answer(LastOfEach(tuples), Lasts(ts), rank)
  {
    var all := LastOfEach(tuples);
    forall r ensures r in all <==> r in Lasts(ts) {
      LastOfEachMember(tuples, r);
      if r in Lasts(ts) {
        var t :| t in ts && Last(t) == r;
        var u :| u in reps && Last(u).id == Last(t).id;
        assert Last(u) in Lasts(ts);
        assert u in tuples;
      }
    }
    forall i, j | 0 <= i < j < |all| ensures all[i] != all[j] {
      assert tuples[i] in tuples && tuples[j] in tuples;
    }
  }

  function RowIds(rows: seq<Row>): seq<ID> { seq(|rows|, i requires 0 <= i < |rows| => rows[i].id) }

  lemma LastOfEachMember(ts: seq<Tuple>, r: Row)
    ensures r in LastOfEach(ts) <==> exists t :: t in ts && Last(t) == r
  {
    if r in LastOfEach(ts) {
      var i :| 0 <= i < |ts| && LastOfEach(ts)[i] == r;
      assert ts[i] in ts;
    }
    if exists t :: t in ts && Last(t) == r {
      var t :| t in ts && Last(t) == r;
      var i :| 0 <= i < |ts| && ts[i] == t;
      assert LastOfEach(ts)[i] == r;
    }
  }

  ghost predicate SortsLast(db: Database, p: Plan, r: Row) {
    forall t :: t in Image(db, p) ==> p.rank(t) <= p.rank(r)
  }

  /** OnlyID on a whole chain, behind an offset: not found, found or not singular exactly as the image has no row
      behind the offset, one or more; and the row found is one that no other row of the image sorts behind. */
  lemma OnlyExact(db: Database, p: Plan, ids: seq<ID>)
    requires StepsWhole(p) && EdgesOk(p) && IdsUnique(p) && Keyed(Rows(db, p.table)) && IdOutcome(db, p, ids)
    requires p.limit == Some(2)
    ensures SingleOf(ids) == NotFound <==> |Image(db, p)| <= OrZero(p.offset)
    ensures SingleOf(ids).Found? <==> |Image(db, p)| == OrZero(p.offset) + 1
    ensures SingleOf(ids).Found? ==> exists r :: r in Image(db, p) && SingleOf(ids) == Found(r.id) && SortsLast(db, p, r)
  {
    var all := IdsListed(db, p, ids);
    AnswerLength(all, Image(db, p), p.rank);
    if |all| == OrZero(p.offset) + 1 {
      var r := all[|all| - 1];
      assert r in all && SingleOf(ids) == Found(r.id);
      forall t | t in Image(db, p) ensures p.rank(t) <= p.rank(r) {
        assert t in all;
        var i :| 0 <= i < |all| && all[i] == t;
      }
    }
  }
}
