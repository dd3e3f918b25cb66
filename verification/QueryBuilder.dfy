/** The mutable query builder and its deep Clone: a tree of heap objects in which every builder owns its
    context, its intermediate selector and the builders of its requested edges, but not the builder that
    its traversal path starts from. */
module QueryBuilder {
  import opened Options
  import opened Graph

  /** An option whose content the builder only stores: an interceptor, an order term, a modifier, a clause. */
  type Token = int

  /** The entity types on the far side of each declared edge, by entity type. */
  type Schema = map<Table, seq<Table>>

  function Targets(schema: Schema, t: Table): seq<Table> {
    if t in schema then schema[t] else []
  }

  /** The closure that a traversal stores: the builder it starts from, and the edge it follows. */
  datatype Path = Path(from: Builder, edge: nat)

  /** The clauses of a SELECT statement; `columns` is empty for all columns. */
  datatype SelectState = SelectState(
    columns: seq<Col>, distinct: bool, modifiers: seq<Token>, preds: seq<Pred>, order: seq<Token>, limit: Option<nat>, offset: nat)

  /** The value of a builder. */
  datatype BuilderState = BuilderState(
    table: Table,
    fields: seq<Col>,
    limit: Option<nat>,
    offset: Option<nat>,
    unique: Option<bool>,
    order: seq<Token>,
    inters: seq<Token>,
    predicates: seq<Pred>,
    withs: seq<Option<BuilderState>>,
    modifiers: seq<Token>,
    sql: Option<SelectState>,
    path: Option<Path>)

  datatype Op =
    | Where(ps: seq<Pred>)
    | Limit(n: nat)
    | Offset(n: nat)
    | Unique(b: bool)
    | Order(terms: seq<Token>)
    | Select(fields: seq<Col>)
    | Intercept(inters: seq<Token>)
    | ForUpdate(postgres: bool, lock: Token)
    | SqlQuery
    | WithEdge(edge: nat, config: seq<Op>)

  // ---- What each operation does to the value ----

  function NewValue(schema: Schema, table: Table): BuilderState {
    BuilderState(table, [], None, None, None, [], [], [], seq(|Targets(schema, table)|, _ => None), [], None, None)
  }

  function Step(schema: Schema, s: BuilderState, op: Op): BuilderState
    decreases op
  {
    match op
    case Where(ps) => s.(predicates := s.predicates + ps)
    case Limit(n) => s.(limit := Some(n))
    case Offset(n) => s.(offset := Some(n))
    case Unique(b) => s.(unique := Some(b))
    case Order(terms) => s.(order := s.order + terms)
    case Select(fields) => s.(fields := s.fields + fields)
    case Intercept(inters) => s.(inters := s.inters + inters)
    case ForUpdate(postgres, lock) =>
      s.(modifiers := s.modifiers + [lock], unique := if postgres then Some(false) else s.unique)
    case SqlQuery => if s.sql.Some? then s.(sql := Some(Refined(s, s.sql.value))) else s
    case WithEdge(edge, config) =>
      if edge < |s.withs| && edge < |Targets(schema, s.table)| then
        var child := Steps(schema, NewValue(schema, Targets(schema, s.table)[edge]), config);
        s.(withs := s.withs[edge := Some(child)])
      else s
  }

  /** A selector after the builder put its clauses on it: columns, limit and offset replace what was there, the
      others are added. */
  function Refined(s: BuilderState, sel: SelectState): SelectState {
    SelectState(s.fields, sel.distinct || s.unique == Some(true), sel.modifiers + s.modifiers, sel.preds + s.predicates,
                sel.order + s.order,
                LimitClause(s.limit, s.offset, sel.limit),
                if s.offset.Some? then s.offset.value else sel.offset)
  }

  function Steps(schema: Schema, s: BuilderState, ops: seq<Op>): BuilderState
    decreases ops
  {
    if ops == [] then s else Steps(schema, Step(schema, s, ops[0]), ops[1..])
  }

  /** What Clone keeps of a value: everything but the modifiers, at every level of the tree. */
  function Cloned(s: BuilderState): BuilderState
    decreases s
  {
    s.(modifiers := [], withs := ClonedAll(s.withs))
  }

  function ClonedAll(ws: seq<Option<BuilderState>>): seq<Option<BuilderState>>
    decreases ws
  {
    seq(|ws|, i requires 0 <= i < |ws| => ClonedOption(ws[i]))
  }

  function ClonedOption(w: Option<BuilderState>): Option<BuilderState>
    decreases w
  {
    match w
    case None => None
    case Some(s) => Some(Cloned(s))
  }

  // ---- The objects ----

  class Context {
    var fields: seq<Col>
    var limit: Option<nat>
    var offset: Option<nat>
    var unique: Option<bool>

    constructor (fields: seq<Col>, limit: Option<nat>, offset: Option<nat>, unique: Option<bool>)
      ensures this.fields == fields && this.limit == limit && this.offset == offset && this.unique == unique
    {
      this.fields, this.limit, this.offset, this.unique := fields, limit, offset, unique;
    }
  }

  class Selector {
    var state: SelectState

    constructor (state: SelectState)
      ensures this.state == state
    {
      this.state := state;
    }
  }

  ghost function AsSet(sql: Selector?): set<object> {
    if sql == null then {} else {sql as object}
  }

  /** Builders that own pairwise disjoint parts of `below`. */
  ghost predicate Forest(schema: Schema, bs: seq<Builder?>, below: set<object>)
    reads below
    decreases below, 1
  {
    && (forall i :: 0 <= i < |bs| && bs[i] != null ==>
         bs[i] in below && bs[i].repr <= below && bs[i].schema == schema && bs[i].Valid())
    && (forall i, j :: 0 <= i < j < |bs| && bs[i] != null && bs[j] != null ==> bs[i].repr !! bs[j].repr)
  }

  ghost function Values(schema: Schema, bs: seq<Builder?>, below: set<object>): (vs: seq<Option<BuilderState>>)
    requires Forest(schema, bs, below)
    ensures |vs| == |bs|
    ensures forall i :: 0 <= i < |bs| ==> vs[i] == if bs[i] == null then None else Some(bs[i].Value())
    reads below
    decreases below, 1, |bs|
  {
    if bs == [] then []
    else
      var n := |bs| - 1;
      Values(schema, bs[..n], below) + [if bs[n] == null then None else Some(bs[n].Value())]
  }

  lemma ForestGrows(schema: Schema, bs: seq<Builder?>, below: set<object>, b: Builder)
    requires Forest(schema, bs, below) && b.Valid() && b.schema == schema && b.repr !! below
    ensures Forest(schema, bs + [b], below + b.repr)
    ensures Values(schema, bs + [b], below + b.repr) == Values(schema, bs, below) + [Some(b.Value())]
  {
    assert (bs + [b])[..|bs|] == bs;
  }

  lemma ForestSkips(schema: Schema, bs: seq<Builder?>, below: set<object>)
    requires Forest(schema, bs, below)
    ensures Forest(schema, bs + [null], below)
    ensures Values(schema, bs + [null], below) == Values(schema, bs, below) + [None]
  {
    assert (bs + [null])[..|bs|] == bs;
  }

  class Builder {
    const schema: Schema
    const table: Table
    var ctx: Context
    var order: seq<Token>
    var inters: seq<Token>
    var predicates: seq<Pred>
    var withs: seq<Builder?>
    var modifiers: seq<Token>
    var sql: Selector?
    var path: Option<Path>
    ghost var repr: set<object>

    /** What the builders of the requested edges own. */
    ghost function Below(): set<object>
      reads this
    {
      repr - {this, ctx} - AsSet(sql)
    }

    /** The builder owns what `repr` lists; what the requested edges own is nested in it and disjoint. */
    ghost predicate Valid()
      reads this, repr
      decreases repr, 0
    {
      && this in repr && ctx in repr && AsSet(sql) <= repr
      && |withs| == |Targets(schema, table)|
      && Forest(schema, withs, Below())
    }

    ghost function Value(): BuilderState
      requires Valid()
      reads this, repr
      decreases repr, 0
    {
      BuilderState(table, ctx.fields, ctx.limit, ctx.offset, ctx.unique, order, inters, predicates,
            Values(schema, withs, Below()), modifiers, if sql == null then None else Some(sql.state), path)
    }

    /** A new query of an entity client. */
    constructor (schema: Schema, table: Table)
      ensures Valid() && fresh(repr) && this.schema == schema && this.table == table
      ensures Value() == NewValue(schema, table)
      ensures ctx.fields == [] && ctx.limit == None && ctx.offset == None && ctx.unique == None
      ensures order == [] && inters == [] && predicates == [] && modifiers == [] && sql == null && path == None
      ensures forall i :: 0 <= i < |withs| ==> withs[i] == null
    {
      this.schema, this.table := schema, table;
      var c := new Context([], None, None, None);
      ctx := c;
      order, inters, predicates, modifiers := [], [], [], [];
      withs := seq(|Targets(schema, table)|, _ => null);
      sql, path := null, None;
      repr := {this, c};
    }

    /** A builder put together from parts that it then owns. */
    constructor Of(schema: Schema, table: Table, ctx: Context, order: seq<Token>, inters: seq<Token>, predicates: seq<Pred>,
                   withs: seq<Builder?>, sql: Selector?, path: Option<Path>, ghost below: set<object>)
      requires |withs| == |Targets(schema, table)| && Forest(schema, withs, below)
      requires ctx !in below && AsSet(sql) !! below
      ensures Valid() && fresh(repr - {ctx} - AsSet(sql) - below) && this.schema == schema
      ensures Value() == BuilderState(table, ctx.fields, ctx.limit, ctx.offset, ctx.unique, order, inters, predicates,
                               Values(schema, withs, below), [], if sql == null then None else Some(sql.state), path)
    {
      this.schema, this.table := schema, table;
      this.ctx, this.order, this.inters, this.predicates := ctx, order, inters, predicates;
      this.withs, this.sql, this.path, this.modifiers := withs, sql, path, [];
      repr := {this, ctx} + AsSet(sql) + below;
      new;
      assert Below() == below;
    }

    /** Copies the builder and everything it owns. The path is copied as it stands: it still starts from the
        builder that the original was reached from. Modifiers are not copied. */
    method Clone() returns (c: Builder)
      requires Valid()
      ensures c.Valid() && fresh(c.repr) && c.schema == schema
      ensures c.Value() == Cloned(old(Value()))
      decreases repr, 0
    {
      var withs', below := CloneEdges(schema, withs, Below());
      c := Copy(withs', below);
    }

    /** A builder with copies of the context and the selector, and with the given edges. */
    method Copy(withs': seq<Builder?>, ghost below: set<object>) returns (c: Builder)
      requires |withs'| == |Targets(schema, table)| && Forest(schema, withs', below)
      ensures c.Valid() && fresh(c.repr - below) && c.schema == schema
      ensures c.Value() == BuilderState(table, ctx.fields, ctx.limit, ctx.offset, ctx.unique, order, inters, predicates,
                                        old(Values(schema, withs', below)), [], if sql == null then None else Some(sql.state), path)
    {
      var ctx', sql' := CopyParts(ctx, sql);
      c := new Builder.Of(schema, table, ctx', order, inters, predicates, withs', sql', path, below);
    }

    method Where(ps: seq<Pred>)
      requires Valid()
      modifies this`predicates
      ensures Valid() && Value() == Step(schema, old(Value()), Op.Where(ps))
      ensures predicates == old(predicates) + ps
    {
      predicates := predicates + ps;
    }

    method Limit(n: nat)
      requires Valid()
      modifies ctx`limit
      ensures Valid() && Value() == Step(schema, old(Value()), Op.Limit(n))
      ensures ctx.limit == Some(n)
    {
      ctx.limit := Some(n);
    }

    method Offset(n: nat)
      requires Valid()
      modifies ctx`offset
      ensures Valid() && Value() == Step(schema, old(Value()), Op.Offset(n))
      ensures ctx.offset == Some(n)
    {
      ctx.offset := Some(n);
    }

    method Unique(b: bool)
      requires Valid()
      modifies ctx`unique
      ensures Valid() && Value() == Step(schema, old(Value()), Op.Unique(b))
      ensures ctx.unique == Some(b)
    {
      ctx.unique := Some(b);
    }

    method Order(terms: seq<Token>)
      requires Valid()
      modifies this`order
      ensures Valid() && Value() == Step(schema, old(Value()), Op.Order(terms))
      ensures order == old(order) + terms
    {
      order := order + terms;
    }

    method Select(fields: seq<Col>)
      requires Valid()
      modifies ctx`fields
      ensures Valid() && Value() == Step(schema, old(Value()), Op.Select(fields))
      ensures ctx.fields == old(ctx.fields) + fields
    {
      ctx.fields := ctx.fields + fields;
    }

    method Intercept(ts: seq<Token>)
      requires Valid()
      modifies this`inters
      ensures Valid() && Value() == Step(schema, old(Value()), Op.Intercept(ts))
      ensures inters == old(inters) + ts
    {
      inters := inters + ts;
    }

    /** Adds a lock clause. On Postgres, which does not lock rows of a distinct query, it also gives up
        distinct rows. */
    method ForUpdate(postgres: bool, lock: Token)
      requires Valid()
      modifies this`modifiers, ctx`unique
      ensures Valid() && Value() == Step(schema, old(Value()), Op.ForUpdate(postgres, lock))
      ensures modifiers == old(modifiers) + [lock] && ctx.unique == if postgres then Some(false) else old(ctx.unique)
    {
      if postgres {
        Unique(false);
      }
      AddModifier(lock);
    }

    method AddModifier(lock: Token)
      requires Valid()
      modifies this`modifiers
      ensures Valid() && Value() == old(Value()).(modifiers := old(Value()).modifiers + [lock])
      ensures modifiers == old(modifiers) + [lock]
    {
      modifiers := modifiers + [lock];
    }

    /** Evaluating the query puts its clauses on the intermediate selector it was given, in place. */
    method SqlQuery()
      requires Valid()
      modifies sql
      ensures Valid() && Value() == Step(schema, old(Value()), Op.SqlQuery)
      ensures sql != null ==>
        var before, after := old(sql.state), sql.state;
        && after.columns == ctx.fields && after.distinct == (before.distinct || ctx.unique == Some(true))
        && after.modifiers == before.modifiers + modifiers && after.preds == before.preds + predicates
        && after.order == before.order + order
        && after.limit == (if ctx.limit.Some? then ctx.limit else if ctx.offset.Some? then Some(2147483647) else before.limit)
        && after.offset == if ctx.offset.Some? then ctx.offset.value else before.offset
    {
      if sql != null {
        var s := sql.state.(columns := ctx.fields);
        if ctx.unique == Some(true) {
          s := s.(distinct := true);
        }
        s := s.(modifiers := s.modifiers + modifiers, preds := s.preds + predicates, order := s.order + order);
        if ctx.offset.Some? {
          s := s.(offset := ctx.offset.value, limit := Some(MAX_INT32));
        }
        if ctx.limit.Some? {
          s := s.(limit := ctx.limit);
        }
        sql.state := s;
      }
    }

    /** Requests an edge: a new builder, configured by the caller's options, replaces the one in place. */
    method WithEdge(edge: nat, config: seq<Op>)
      requires Valid()
      modifies this`withs, this`repr
      ensures Valid() && fresh(repr - old(repr))
      ensures Value() == Step(schema, old(Value()), Op.WithEdge(edge, config))
      ensures if edge < |old(withs)| then withs == old(withs)[edge := withs[edge]] && withs[edge] != null && fresh(withs[edge]) else withs == old(withs)
      decreases config, 2
    {
      if edge < |withs| {
        var child := Configured(schema, Targets(schema, table)[edge], config);
        Attach(edge, child);
      }
    }

    static method Configured(schema: Schema, table: Table, config: seq<Op>) returns (child: Builder)
      ensures child.Valid() && fresh(child.repr) && child.schema == schema
      ensures child.Value() == Steps(schema, NewValue(schema, table), config)
      decreases config, 1
    {
      child := new Builder(schema, table);
      child.ApplyAll(config);
    }

    method Attach(edge: nat, child: Builder)
      requires Valid() && edge < |withs|
      requires child.Valid() && child.schema == schema && child.repr !! repr
      modifies this`withs, this`repr
      ensures withs == old(withs)[edge := child]
      ensures Valid() && repr == old(repr) + child.repr
      ensures Value() == old(Value()).(withs := old(Value()).withs[edge := Some(old(child.Value()))])
    {
      ghost var below, v := Below(), child.Value();
      ForestReplaces(schema, withs, below, edge, child);
      SetEdges(withs[edge := child], below + child.repr, old(Value()).withs[edge := Some(v)]);
    }

    /** Puts other edge builders in place; `vs` are their values. */
    method SetEdges(withs': seq<Builder?>, ghost below: set<object>, ghost vs: seq<Option<BuilderState>>)
      requires this in repr && ctx in repr && AsSet(sql) <= repr && |withs'| == |Targets(schema, table)|
      requires {this, ctx} + AsSet(sql) !! below && Forest(schema, withs', below) && Values(schema, withs', below) == vs
      modifies this`withs, this`repr
      ensures withs == withs' && repr == {this, ctx} + AsSet(sql) + below && Valid()
      ensures Value() == BuilderState(table, ctx.fields, ctx.limit, ctx.offset, ctx.unique, order, inters, predicates, vs,
                                      modifiers, if sql == null then None else Some(sql.state), path)
    {
      repr := {this, ctx} + AsSet(sql) + below;
      assert Below() == below;
      withs := withs';
      assert Forest(schema, withs, below) && Values(schema, withs, below) == vs;
    }

    method Apply(op: Op)
      requires Valid()
      modifies repr
      ensures Valid() && fresh(repr - old(repr))
      ensures Value() == Step(schema, old(Value()), op)
      decreases op, 3
    {
      match op
      case Where(ps) => Where(ps);
      case Limit(n) => Limit(n);
      case Offset(n) => Offset(n);
      case Unique(b) => Unique(b);
      case Order(terms) => Order(terms);
      case Select(fields) => Select(fields);
      case Intercept(ts) => Intercept(ts);
      case ForUpdate(postgres, lock) => ForUpdate(postgres, lock);
      case SqlQuery => SqlQuery();
      case WithEdge(edge, config) => WithEdge(edge, config);
    }

    method ApplyAll(ops: seq<Op>)
      requires Valid()
      modifies repr
      ensures Valid() && fresh(repr - old(repr))
      ensures Value() == Steps(schema, old(Value()), ops)
      decreases ops, 0
    {
      if ops != [] {
        Apply(ops[0]);
        ApplyAll(ops[1..]);
      }
    }
  }

  lemma ForestReplaces(schema: Schema, bs: seq<Builder?>, below: set<object>, i: nat, b: Builder)
    requires Forest(schema, bs, below) && i < |bs| && b.Valid() && b.schema == schema && b.repr !! below
    ensures Forest(schema, bs[i := b], below + b.repr)
    ensures Values(schema, bs[i := b], below + b.repr) == Values(schema, bs, below)[i := Some(b.Value())]
  {
  }

  method CopyParts(ctx: Context, sql: Selector?) returns (ctx': Context, sql': Selector?)
    ensures fresh(ctx') && fresh(AsSet(sql')) && (sql' == null <==> sql == null)
    ensures ctx'.fields == ctx.fields && ctx'.limit == ctx.limit && ctx'.offset == ctx.offset && ctx'.unique == ctx.unique
    ensures sql != null ==> sql'.state == sql.state
  {
    ctx' := new Context(ctx.fields, ctx.limit, ctx.offset, ctx.unique);
    sql' := null;
    if sql != null {
      sql' := new Selector(sql.state);
    }
  }

  ghost function ValueOption(b: Builder?): Option<BuilderState>
    requires b != null ==> b.Valid()
    reads b, if b == null then {} else b.repr
  {
    if b == null then None else Some(b.Value())
  }

  /** Clones one more edge builder; `vs` are the values of those already cloned. */
  method CloneEdge(schema: Schema, b: Builder?, clones: seq<Builder?>, ghost below: set<object>, ghost vs: seq<Option<BuilderState>>)
    returns (clones': seq<Builder?>, ghost below': set<object>)
    requires b != null ==> b.Valid() && b.schema == schema
    requires Forest(schema, clones, below) && Values(schema, clones, below) == ClonedAll(vs)
    ensures below <= below' && fresh(below' - below) && Forest(schema, clones', below')
    ensures |clones'| == |clones| + 1
    ensures Values(schema, clones', below') == ClonedAll(vs + [old(ValueOption(b))])
    decreases if b == null then {} else b.repr, 1
  {
    ClonedAllOneMore(vs, ValueOption(b));
    if b == null {
      ForestSkips(schema, clones, below);
      clones', below' := clones + [null], below;
    } else {
      var c := b.Clone();
      ForestGrows(schema, clones, below, c);
      clones', below' := clones + [c], below + c.repr;
    }
  }

  method CloneEdges(schema: Schema, bs: seq<Builder?>, ghost below: set<object>) returns (clones: seq<Builder?>, ghost below': set<object>)
    requires Forest(schema, bs, below)
    ensures |clones| == |bs| && fresh(below') && Forest(schema, clones, below')
    ensures Values(schema, clones, below') == ClonedAll(old(Values(schema, bs, below)))
    decreases below, 2, |bs|
  {
    if bs == [] {
      return [], {};
    }
    var n := |bs| - 1;
    ForestSplits(schema, bs, below);
    clones, below' := CloneEdges(schema, bs[..n], below);
    clones, below' := CloneEdge(schema, bs[n], clones, below', old(Values(schema, bs[..n], below)));
  }

  lemma ForestSplits(schema: Schema, bs: seq<Builder?>, below: set<object>)
    requires Forest(schema, bs, below) && bs != []
    ensures var n := |bs| - 1;
      && Forest(schema, bs[..n], below)
      && (bs[n] != null ==> bs[n].Valid() && bs[n].schema == schema && bs[n].repr <= below)
      && Values(schema, bs, below) == Values(schema, bs[..n], below) + [ValueOption(bs[n])]
  {
  }

  lemma ClonedAllOneMore(ws: seq<Option<BuilderState>>, w: Option<BuilderState>)
    ensures ClonedAll(ws + [w]) == ClonedAll(ws) + [ClonedOption(w)]
  {
  }

  // ---- Independence of a clone ----

  /** The operations of an interleaved script that are meant for one of its two builders. */
  function Only(script: seq<(bool, Op)>, first: bool): seq<Op> {
    if script == [] then []
    else if script[0].0 == first then [script[0].1] + Only(script[1..], first)
    else Only(script[1..], first)
  }

  /** Runs a script whose operations go to one builder or the other, in any interleaving. Each builder ends as
      if the other's operations had not happened. */
  method Interleave(a: Builder, b: Builder, script: seq<(bool, Op)>)
    requires a.Valid() && b.Valid() && a.repr !! b.repr
    modifies a.repr, b.repr
    ensures a.Valid() && b.Valid() && a.repr !! b.repr
    ensures a.Value() == Steps(a.schema, old(a.Value()), Only(script, true))
    ensures b.Value() == Steps(b.schema, old(b.Value()), Only(script, false))
    decreases script
  {
    if script != [] {
      if script[0].0 {
        a.Apply(script[0].1);
      } else {
        b.Apply(script[0].1);
      }
      Interleave(a, b, script[1..]);
    }
  }

  /** A clone and its original are independent from the moment of cloning on: after any interleaving of
      operations the original is what its own operations make of it, and the clone what its own make of the
      original's value without modifiers. */
  method CloneIsIndependent(q: Builder, script: seq<(bool, Op)>) returns (c: Builder)
    requires q.Valid()
    modifies q.repr
    ensures q.Valid() && c.Valid() && c.schema == q.schema && q.repr !! c.repr
    ensures q.Value() == Steps(q.schema, old(q.Value()), Only(script, true))
    ensures c.Value() == Steps(q.schema, Cloned(old(q.Value())), Only(script, false))
  {
    c := q.Clone();
    Interleave(q, c, script);
  }

  // ---- What a script does ----

  /** What the operations of a script contribute, in order. */
  function Collected<T>(ops: seq<Op>, part: Op -> seq<T>): seq<T> {
    if ops == [] then [] else part(ops[0]) + Collected(ops[1..], part)
  }

  /** What is appended to the lists of a builder. */
  datatype Parts = Parts(preds: seq<Pred>, order: seq<Token>, fields: seq<Col>, inters: seq<Token>, modifiers: seq<Token>)

  function PartsOf(op: Op): Parts {
    Parts(if op.Where? then op.ps else [], if op.Order? then op.terms else [], if op.Select? then op.fields else [],
          if op.Intercept? then op.inters else [], if op.ForUpdate? then [op.lock] else [])
  }

  function Plus(a: Parts, b: Parts): Parts {
    Parts(a.preds + b.preds, a.order + b.order, a.fields + b.fields, a.inters + b.inters, a.modifiers + b.modifiers)
  }

  function AllParts(ops: seq<Op>): Parts {
    if ops == [] then Parts([], [], [], [], []) else Plus(PartsOf(ops[0]), AllParts(ops[1..]))
  }

  function LimitOf(op: Op): seq<nat> { if op.Limit? then [op.n] else [] }
  function OffsetOf(op: Op): seq<nat> { if op.Offset? then [op.n] else [] }

  /** A lock on Postgres sets the flag to false. */
  function UniqueOf(op: Op): seq<bool> {
    if op.Unique? then [op.b] else if op.ForUpdate? && op.postgres then [false] else []
  }

  function RequestOf(edge: nat): Op -> seq<seq<Op>> {
    (op: Op) => if op.WithEdge? && op.edge == edge then [op.config] else []
  }

  function LastOr<T>(xs: seq<T>, old': Option<T>): Option<T> {
    if xs == [] then old' else Some(xs[|xs| - 1])
  }

  /** Each list of `r` is that of `s` followed by what is appended; the table and the path are the same. */
  ghost predicate Appended(s: BuilderState, r: BuilderState, p: Parts) {
    && r.predicates == s.predicates + p.preds && r.order == s.order + p.order && r.fields == s.fields + p.fields
    && r.inters == s.inters + p.inters && r.modifiers == s.modifiers + p.modifiers
    && r.table == s.table && r.path == s.path && |r.withs| == |s.withs| && (s.sql.None? <==> r.sql.None?)
  }

  lemma StepAppends(schema: Schema, s: BuilderState, op: Op)
    ensures Appended(s, Step(schema, s, op), PartsOf(op))
  {
  }

  lemma AppendedTwice(s: BuilderState, next: BuilderState, r: BuilderState, a: Parts, b: Parts)
    requires Appended(s, next, a) && Appended(next, r, b)
    ensures Appended(s, r, Plus(a, b))
  {
  }

  /** After any script each list of a builder is the old one followed by what the operations appended, in order. */
  lemma {:induction false} ScriptAppends(schema: Schema, s: BuilderState, ops: seq<Op>)
    ensures Appended(s, Steps(schema, s, ops), AllParts(ops))
    decreases |ops|
  {
    if ops != [] {
      var next := Step(schema, s, ops[0]);
      StepAppends(schema, s, ops[0]);
      ScriptAppends(schema, next, ops[1..]);
      AppendedTwice(s, next, Steps(schema, s, ops), PartsOf(ops[0]), AllParts(ops[1..]));
    }
  }

  /** The limit, the offset and the unique flag of `r` are the last of those given, or those of `s`. */
  ghost predicate LastSet(s: BuilderState, r: BuilderState, limits: seq<nat>, offsets: seq<nat>, uniques: seq<bool>) {
    r.limit == LastOr(limits, s.limit) && r.offset == LastOr(offsets, s.offset) && r.unique == LastOr(uniques, s.unique)
  }

  lemma StepSets(schema: Schema, s: BuilderState, op: Op)
    ensures LastSet(s, Step(schema, s, op), LimitOf(op), OffsetOf(op), UniqueOf(op))
  {
  }

  lemma LastOfBoth<T>(xs: seq<T>, ys: seq<T>, old': Option<T>)
    ensures LastOr(ys, LastOr(xs, old')) == LastOr(xs + ys, old')
  {
  }

  /** After any script the limit, the offset and the unique flag are those of the last operation that set them,
      or what they were when there is none. */
  lemma {:induction false} ScriptSets(schema: Schema, s: BuilderState, ops: seq<Op>)
    ensures LastSet(s, Steps(schema, s, ops), Collected(ops, LimitOf), Collected(ops, OffsetOf), Collected(ops, UniqueOf))
    decreases |ops|
  {
    if ops != [] {
      var rest := ops[1..];
      StepSets(schema, s, ops[0]);
      ScriptSets(schema, Step(schema, s, ops[0]), rest);
      LastOfBoth(LimitOf(ops[0]), Collected(rest, LimitOf), s.limit);
      LastOfBoth(OffsetOf(ops[0]), Collected(rest, OffsetOf), s.offset);
      LastOfBoth(UniqueOf(ops[0]), Collected(rest, UniqueOf), s.unique);
    }
  }

  lemma StepRequests(schema: Schema, s: BuilderState, op: Op, edge: nat)
    requires edge < |s.withs| == |Targets(schema, s.table)|
    ensures var r := Step(schema, s, op);
      && |r.withs| == |s.withs| && r.table == s.table
      && r.withs[edge] == if op.WithEdge? && op.edge == edge
           then Some(Steps(schema, NewValue(schema, Targets(schema, s.table)[edge]), op.config)) else s.withs[edge]
  {
  }

  /** After any script a requested edge has a new builder, as the last request for it configured it. */
  lemma {:induction false} ScriptRequests(schema: Schema, s: BuilderState, ops: seq<Op>, edge: nat)
    requires edge < |s.withs| == |Targets(schema, s.table)|
    ensures var (r, requests) := (Steps(schema, s, ops), Collected(ops, RequestOf(edge)));
      && |r.withs| == |s.withs|
      && r.withs[edge] == if requests == [] then s.withs[edge]
           else Some(Steps(schema, NewValue(schema, Targets(schema, s.table)[edge]), requests[|requests| - 1]))
    decreases |ops|
  {
    if ops != [] {
      StepRequests(schema, s, ops[0], edge);
      ScriptRequests(schema, Step(schema, s, ops[0]), ops[1..], edge);
    }
  }

  // ---- What a clone keeps ----

  ghost predicate NoModifiers(s: BuilderState)
    decreases s
  {
    s.modifiers == [] && forall i :: 0 <= i < |s.withs| ==> NoModifiersIn(s.withs[i])
  }

  ghost predicate NoModifiersIn(w: Option<BuilderState>)
    decreases w
  {
    match w
    case None => true
    case Some(s) => NoModifiers(s)
  }

  /** A clone agrees with its original on everything exactly when no builder of the tree has a modifier. */
  lemma {:induction false} CloneIsExact(s: BuilderState)
    ensures Cloned(s) == s <==> NoModifiers(s)
    ensures NoModifiers(Cloned(s))
    decreases s, 1
  {
    forall i | 0 <= i < |s.withs|
      ensures ClonedOption(s.withs[i]) == s.withs[i] <==> NoModifiersIn(s.withs[i])
      ensures NoModifiersIn(ClonedOption(s.withs[i]))
    {
      match s.withs[i]
      case None =>
      case Some(w) => CloneIsExact(w);
    }
    assert ClonedAll(s.withs) == s.withs <==> forall i :: 0 <= i < |s.withs| ==> ClonedOption(s.withs[i]) == s.withs[i];
  }
}
