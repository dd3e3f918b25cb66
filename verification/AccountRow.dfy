/** An account on its way from a mutation to an insert specification, a stored row, and back through
    scanValues and assignValues into a struct. The fields of the struct, of the mutation and of the
    specification are indexed by the column that holds them. */
module AccountRow {
  import opened Options
  import opened Graph
  import opened AccountEdges

  type Raw = seq<bv8>
  type Json = string

  /** JSON encoding and decoding, as far as it matters here: no value encodes to nothing. */
  datatype Codec = Codec(encode: Json -> Raw, decode: Raw -> Option<Json>)

  ghost predicate Inverse(codec: Codec) {
    forall j :: codec.encode(j) != [] && codec.decode(codec.encode(j)) == Some(j)
  }

  datatype Column =
    | Id | ProxyId | CreatedAt | UpdatedAt | DeletedAt | Name | Notes | Platform | Type | Credentials | Extra
    | Concurrency | LoadFactor | Priority | RateMultiplier | Status | ErrorMessage | LastUsedAt | ExpiresAt
    | AutoPauseOnExpired | Schedulable | RateLimitedAt | RateLimitResetAt | OverloadUntil
    | TempUnschedulableUntil | TempUnschedulableReason | SessionWindowStart | SessionWindowEnd | SessionWindowStatus
    | Other(name: string)

  datatype Kind = TimeKind | TextKind | JsonKind | IntKind | FloatKind | BoolKind | UnknownKind

  /** A field value, or a column value; a JSON column holds its encoding. */
  datatype Value = TimeV(t: int) | TextV(s: string) | JsonV(j: Json) | RawV(raw: Raw) | IntV(i: int) | FloatV(f: real) | BoolV(b: bool)

  /** The holder a column is scanned into: the driver's nullable types, and the catch-all of unknown columns. */
  datatype Holder = Holder(kind: Kind, value: Option<Value>)

  // ---- Mutation, defaults and check ----

  datatype Mutation = Mutation(fields: map<Column, Value>, groups: seq<ID>, proxies: seq<ID>, usageLogs: seq<ID>)

  /** The fields that defaults fills, in its order. The first four come from functions that are nil until the
      runtime package is imported. */
  const DEFAULTED: seq<Column> := [
    CreatedAt, UpdatedAt, Credentials, Extra,
    Concurrency, Priority, RateMultiplier, Status, AutoPauseOnExpired, Schedulable]

  datatype DefaultsResult = DefaultsResult(mutation: Mutation, missing: Option<Column>)

  /** Fills unset fields in order and stops at the first whose default is not initialized; what was filled up
      to there stays filled. */
  function Defaults(order: seq<Column>, values: map<Column, Value>, m: Mutation): DefaultsResult {
    if order == [] then DefaultsResult(m, None)
    else
      var c := order[0];
      if c in m.fields then Defaults(order[1..], values, m)
      else if c !in values then DefaultsResult(m, Some(c))
      else Defaults(order[1..], values, m.(fields := m.fields[c := values[c]]))
  }

  /** A rule of check: the field is set, or its value, when set, passes the validator. */
  datatype Rule = Required(c: Column) | Valid(c: Column)

  const RULES: seq<Rule> := [
    Required(CreatedAt), Required(UpdatedAt),
    Required(Name), Valid(Name), Required(Platform), Valid(Platform), Required(Type), Valid(Type),
    Required(Credentials), Required(Extra), Required(Concurrency), Required(Priority), Required(RateMultiplier),
    Required(Status), Valid(Status), Required(AutoPauseOnExpired), Required(Schedulable),
    Valid(SessionWindowStatus)]

  predicate Meets(rule: Rule, valid: (Column, Value) -> bool, m: Mutation) {
    match rule
    case Required(c) => c in m.fields
    case Valid(c) => c in m.fields ==> valid(c, m.fields[c])
  }

  /** The first rule that the mutation breaks. */
  function Check(rules: seq<Rule>, valid: (Column, Value) -> bool, m: Mutation): Option<Rule> {
    if rules == [] then None
    else if !Meets(rules[0], valid, m) then Some(rules[0])
    else Check(rules[1..], valid, m)
  }

  lemma {:induction false} CheckPasses(rules: seq<Rule>, valid: (Column, Value) -> bool, m: Mutation)
    ensures Check(rules, valid, m) == None <==> forall r :: r in rules ==> Meets(r, valid, m)
    ensures Check(rules, valid, m).Some? ==> exists i :: 0 <= i < |rules| && FirstBroken(rules, valid, m, i) && Check(rules, valid, m).value == rules[i]
  {
    if rules != [] {
      var rest := rules[1..];
      CheckPasses(rest, valid, m);
      assert rules == [rules[0]] + rest;
      if Meets(rules[0], valid, m) && Check(rest, valid, m).Some? {
        var i :| 0 <= i < |rest| && FirstBroken(rest, valid, m, i) && Check(rest, valid, m).value == rest[i];
        assert FirstBroken(rules, valid, m, i + 1) by {
          assert forall j :: 0 < j <= i ==> rules[j] == rest[j - 1];
        }
      }
    }
  }

  /** Rule `i` is broken, and none before it. */
  ghost predicate FirstBroken(rules: seq<Rule>, valid: (Column, Value) -> bool, m: Mutation, i: nat)
    requires i < |rules|
  {
    !Meets(rules[i], valid, m) && forall j :: 0 <= j < i ==> Meets(rules[j], valid, m)
  }

  lemma {:induction false} DefaultsFill(order: seq<Column>, values: map<Column, Value>, m: Mutation)
    ensures var r := Defaults(order, values, m);
      && r.mutation == m.(fields := r.mutation.fields)
      && (forall c :: c in m.fields ==> c in r.mutation.fields && r.mutation.fields[c] == m.fields[c])
      && (forall c :: c in r.mutation.fields ==> c in m.fields || c in order)
      && (r.missing == None ==> forall c :: c in order ==> c in r.mutation.fields)
      && (r.missing.Some? ==> r.missing.value in order && r.missing.value !in r.mutation.fields)
      && (r.missing.Some? <==> exists c :: c in order && c !in m.fields && c !in values)
      && (forall c :: c in r.mutation.fields && c !in m.fields ==> c in values && r.mutation.fields[c] == values[c])
  {
    if order != [] {
      var c := order[0];
      var next := if c in m.fields || c !in values then m else m.(fields := m.fields[c := values[c]]);
      DefaultsFill(order[1..], values, next);
      assert order == [c] + order[1..];
    }
  }

  /** Defaults stop at the first unset field that has none: what comes before it in order is filled, what comes
      after it is not. */
  lemma {:induction false} DefaultsStop(order: seq<Column>, values: map<Column, Value>, m: Mutation) returns (i: nat)
    requires Defaults(order, values, m).missing.Some?
    ensures var r := Defaults(order, values, m);
      && i < |order| && r.missing == Some(order[i])
      && (forall j :: 0 <= j < i ==> order[j] in r.mutation.fields)
      && (forall c :: c in r.mutation.fields ==> c in m.fields || c in order[..i])
    decreases |order|
  {
    var c := order[0];
    i := 0;
    if c in m.fields || c in values {
      var rest := order[1..];
      var next := if c in m.fields then m else m.(fields := m.fields[c := values[c]]);
      DefaultsFill(rest, values, next);
      var k := DefaultsStop(rest, values, next);
      i := k + 1;
      assert order[..i] == [c] + rest[..k];
      assert forall j :: 0 < j < i ==> order[j] == rest[j - 1];
    }
  }

  /** The bulk path drops the error of defaults, and may: a field left without its default fails check. */
  lemma FailedDefaultsFailCheck(values: map<Column, Value>, valid: (Column, Value) -> bool, m: Mutation)
    requires Defaults(DEFAULTED, values, m).missing.Some?
    ensures Check(RULES, valid, Defaults(DEFAULTED, values, m).mutation).Some?
  {
    var r := Defaults(DEFAULTED, values, m);
    DefaultsFill(DEFAULTED, values, m);
    CheckPasses(RULES, valid, r.mutation);
    assert Required(r.missing.value) in RULES;
  }

  const CALLER_SET: set<Column> := {Name, Platform, Type}
  const VALIDATED: set<Column> := {Name, Platform, Type, Status, SessionWindowStatus}

  lemma RuleColumns(rule: Rule)
    ensures rule in RULES <==> match rule
      case Required(c) => c in DEFAULTED || c in CALLER_SET
      case Valid(c) => c in VALIDATED
  {
  }

  lemma CheckExact(valid: (Column, Value) -> bool, m: Mutation)
    ensures Check(RULES, valid, m) == None <==>
      && (forall c :: c in DEFAULTED || c in CALLER_SET ==> c in m.fields)
      && (forall c :: c in VALIDATED && c in m.fields ==> valid(c, m.fields[c]))
  {
    CheckPasses(RULES, valid, m);
    forall rule { RuleColumns(rule); }
    if Check(RULES, valid, m) == None {
      forall c | c in DEFAULTED || c in CALLER_SET ensures c in m.fields {
        assert Meets(Required(c), valid, m);
      }
      forall c | c in VALIDATED && c in m.fields ensures valid(c, m.fields[c]) {
        assert Meets(Valid(c), valid, m);
      }
    }
  }

  /** After defaults, check passes exactly when name, platform and type were set and every value that has a
      validator, the default status included, is valid. */
  lemma CheckAfterDefaults(values: map<Column, Value>, valid: (Column, Value) -> bool, m: Mutation)
    requires Defaults(DEFAULTED, values, m).missing == None
    ensures var f := Defaults(DEFAULTED, values, m).mutation.fields;
      Check(RULES, valid, Defaults(DEFAULTED, values, m).mutation) == None <==>
        && (forall c :: c in CALLER_SET ==> c in m.fields)
        && (forall c :: c in VALIDATED && c in f ==> valid(c, f[c]))
  {
    var after := Defaults(DEFAULTED, values, m).mutation;
    DefaultsFill(DEFAULTED, values, m);
    CheckExact(valid, after);
    forall c | c in CALLER_SET ensures c in after.fields <==> c in m.fields {
      NoDefault(c);
    }
  }

  lemma NoDefault(c: Column)
    requires c in CALLER_SET
    ensures c !in DEFAULTED
  {
  }

  // ---- createSpec and the insert ----

  /** The struct. `fields` always has the columns whose struct field is not a pointer; a pointer field is there
      when it is not nil. */
  datatype Account = Account(id: ID, fields: map<Column, Value>, proxyId: Option<ID>, selected: map<string, Holder>)

  /** The columns whose struct field is not a pointer. */
  const PLAIN: set<Column> := {
    CreatedAt, UpdatedAt, Name, Platform, Type, Credentials, Extra,
    Concurrency, Priority, RateMultiplier, Status, AutoPauseOnExpired, Schedulable}

  /** The zero value of such a field; for a JSON column the nil map, which encodes as null. */
  function Zero(c: Column): Value {
    match ScanKind(c)
    case TimeKind => TimeV(0)
    case TextKind => TextV("")
    case JsonKind => JsonV("null")
    case IntKind => IntV(0)
    case FloatKind => FloatV(0.0)
    case BoolKind => BoolV(false)
    case UnknownKind => RawV([])
  }

  const ZERO_FIELDS: map<Column, Value> := map c | c in PLAIN :: Zero(c)

  datatype CreateSpec = CreateSpec(fields: map<Column, Value>, edges: seq<EdgeSpec>)

  /** The specification, and below the node, that createSpec builds side by side from the mutation. */
  function SpecOf(m: Mutation): CreateSpec {
    CreateSpec(m.fields, CreateEdges(m.groups, m.proxies, m.usageLogs))
  }

  function CreateEdges(groups: seq<ID>, proxies: seq<ID>, usageLogs: seq<ID>): seq<EdgeSpec> {
    (if groups != [] then [EdgeSpec(Groups, groups)] else [])
    + (if proxies != [] then [EdgeSpec(Proxy, proxies)] else [])
    + (if usageLogs != [] then [EdgeSpec(UsageLogs, usageLogs)] else [])
  }

  /** Replaying the edges of a specification on an account without neighbours gives those of the mutation. */
  lemma CreateReplay(groups: seq<ID>, proxies: seq<ID>, usageLogs: seq<ID>)
    ensures AddAll(NO_NEIGHBOURS, CreateEdges(groups, proxies, usageLogs)) ==
      Neighbours(set x | x in groups, if proxies == [] then None else Some(proxies[0]), set x | x in usageLogs)
  {
    var g := if groups != [] then [EdgeSpec(Groups, groups)] else [];
    var p := if proxies != [] then [EdgeSpec(Proxy, proxies)] else [];
    ReplayAppended(NO_NEIGHBOURS, [], Groups, groups);
    assert [] + g == g;
    ReplayAppended(NO_NEIGHBOURS, g, Proxy, proxies);
    ReplayAppended(NO_NEIGHBOURS, g + p, UsageLogs, usageLogs);
    AddThree(groups, proxies, usageLogs);
  }

  lemma AddThree(groups: seq<ID>, proxies: seq<ID>, usageLogs: seq<ID>)
    ensures AddOne(AddOne(AddOne(NO_NEIGHBOURS, EdgeSpec(Groups, groups)), EdgeSpec(Proxy, proxies)), EdgeSpec(UsageLogs, usageLogs)) ==
      Neighbours(set x | x in groups, if proxies == [] then None else Some(proxies[0]), set x | x in usageLogs)
  {
  }

  function NodeOf(m: Mutation): Account {
    Account(0, ZERO_FIELDS + m.fields, if m.proxies != [] then Some(m.proxies[0]) else None, map[])
  }

  /** The row that an insert stores: the fields, JSON encoded, the assigned ID, and the column of a
      many-to-one edge. */
  function Stored(codec: Codec, spec: CreateSpec, id: ID): map<Column, Value> {
    var fields := map c | c in spec.fields :: if spec.fields[c].JsonV? then RawV(codec.encode(spec.fields[c].j)) else spec.fields[c];
    WithProxy(fields[Id := IntV(id)], spec.edges)
  }

  function WithProxy(row: map<Column, Value>, edges: seq<EdgeSpec>): map<Column, Value>
    decreases |edges|
  {
    if edges == [] then row
    else
      var e := edges[0];
      WithProxy(if e.edge == Proxy && e.nodes != [] then row[ProxyId := IntV(e.nodes[0])] else row, edges[1..])
  }

  // ---- scanValues ----

  /** The holder that scanValues chooses for a column. */
  function ScanKind(c: Column): Kind {
    match c
    case Credentials | Extra => JsonKind
    case AutoPauseOnExpired | Schedulable => BoolKind
    case RateMultiplier => FloatKind
    case Id | ProxyId | Concurrency | LoadFactor | Priority => IntKind
    case Name | Notes | Platform | Type | Status | ErrorMessage | TempUnschedulableReason | SessionWindowStatus => TextKind
    case CreatedAt | UpdatedAt | DeletedAt | LastUsedAt | ExpiresAt | RateLimitedAt | RateLimitResetAt | OverloadUntil
       | TempUnschedulableUntil | SessionWindowStart | SessionWindowEnd => TimeKind
    case Other(_) => UnknownKind
  }

  /** Whether a value can be scanned into a holder of a kind. */
  predicate Scans(k: Kind, v: Value) {
    match k
    case TimeKind => v.TimeV?
    case TextKind => v.TextV?
    case JsonKind => v.RawV?
    case IntKind => v.IntV?
    case FloatKind => v.FloatV?
    case BoolKind => v.BoolV?
    case UnknownKind => true
  }

  method ScanValues(columns: seq<Column>) returns (kinds: seq<Kind>)
    ensures |kinds| == |columns| && forall i :: 0 <= i < |columns| ==> kinds[i] == ScanKind(columns[i])
  {
    kinds := [];
    for i := 0 to |columns|
      invariant |kinds| == i && forall j :: 0 <= j < i ==> kinds[j] == ScanKind(columns[j])
    {
      kinds := kinds + [ScanKind(columns[i])];
    }
  }

  /** What the driver leaves in the holders for a row; NULL leaves a holder invalid. */
  function Filled(columns: seq<Column>, kinds: seq<Kind>, row: map<Column, Value>): seq<Holder>
    requires |kinds| == |columns|
  {
    seq(|columns|, i requires 0 <= i < |columns| => Holder(kinds[i], if columns[i] in row then Some(row[columns[i]]) else None))
  }

  // ---- assignValues ----

  datatype AssignError = Mismatch | UnexpectedType(c: Column) | BadJson(c: Column)
  datatype Assigned = Ok(account: Account) | Err(error: AssignError)

  /** The holder that assignValues expects for a column: its case distinction, one column at a time. */
  function AssignKind(c: Column): Kind {
    match c
    case Id => IntKind
    case CreatedAt => TimeKind
    case UpdatedAt => TimeKind
    case DeletedAt => TimeKind
    case Name => TextKind
    case Notes => TextKind
    case Platform => TextKind
    case Type => TextKind
    case Credentials => JsonKind
    case Extra => JsonKind
    case ProxyId => IntKind
    case Concurrency => IntKind
    case LoadFactor => IntKind
    case Priority => IntKind
    case RateMultiplier => FloatKind
    case Status => TextKind
    case ErrorMessage => TextKind
    case LastUsedAt => TimeKind
    case ExpiresAt => TimeKind
    case AutoPauseOnExpired => BoolKind
    case Schedulable => BoolKind
    case RateLimitedAt => TimeKind
    case RateLimitResetAt => TimeKind
    case OverloadUntil => TimeKind
    case TempUnschedulableUntil => TimeKind
    case TempUnschedulableReason => TextKind
    case SessionWindowStart => TimeKind
    case SessionWindowEnd => TimeKind
    case SessionWindowStatus => TextKind
    case Other(_) => UnknownKind
  }

  /** One turn of the loop of assignValues. An invalid holder leaves a field alone, except that the ID is
      then zero. */
  function AssignColumn(codec: Codec, a: Account, c: Column, h: Holder): Assigned {
    if c.Other? then Ok(a.(selected := a.selected[c.name := h]))
    else if h.kind != AssignKind(c) then Err(UnexpectedType(c))
    else if h.value.None? || !Scans(h.kind, h.value.value) then Ok(if c.Id? then a.(id := 0) else a)
    else
      var v := h.value.value;
      if c.Id? then Ok(a.(id := v.i))
      else if c.ProxyId? then Ok(a.(proxyId := Some(v.i)))
      else if h.kind.JsonKind? then
        if v.raw == [] then Ok(a)
        else if codec.decode(v.raw).None? then Err(BadJson(c))
        else Ok(a.(fields := a.fields[c := JsonV(codec.decode(v.raw).value)]))
      else Ok(a.(fields := a.fields[c := v]))
  }

  function AssignAll(codec: Codec, a: Account, columns: seq<Column>, holders: seq<Holder>): Assigned
    requires |columns| <= |holders|
    decreases |columns|
  {
    if columns == [] then Ok(a)
    else
      var first := AssignColumn(codec, a, columns[0], holders[0]);
      if first.Err? then first else AssignAll(codec, first.account, columns[1..], holders[1..])
  }

  method AssignValues(codec: Codec, a: Account, columns: seq<Column>, holders: seq<Holder>) returns (r: Assigned)
    ensures r == if |holders| < |columns| then Err(Mismatch) else AssignAll(codec, a, columns, holders)
  {
    if |holders| < |columns| {
      return Err(Mismatch);
    }
    var b := a;
    for i := 0 to |columns|
      invariant AssignAll(codec, a, columns, holders) == AssignAll(codec, b, columns[i..], holders[i..])
    {
      var turn := AssignColumn(codec, b, columns[i], holders[i]);
      if turn.Err? {
        return turn;
      }
      assert columns[i..][1..] == columns[i + 1..] && holders[i..][1..] == holders[i + 1..];
      b := turn.account;
    }
    r := Ok(b);
  }

  /** The fresh struct that the row is assigned to. */
  const ZERO := Account(0, ZERO_FIELDS, None, map[])

  /** What a query makes of a row, with the columns it scanned: the struct `a` after scanning and assigning. */
  function ReadBack(codec: Codec, a: Account, columns: seq<Column>, row: map<Column, Value>): Assigned {
    AssignAll(codec, a, columns, Filled(columns, seq(|columns|, i requires 0 <= i < |columns| => ScanKind(columns[i])), row))
  }

  method ReadRow(codec: Codec, columns: seq<Column>, row: map<Column, Value>) returns (r: Assigned)
    ensures r == ReadBack(codec, ZERO, columns, row)
  {
    var kinds := ScanValues(columns);
    assert kinds == seq(|columns|, i requires 0 <= i < |columns| => ScanKind(columns[i]));
    r := AssignValues(codec, ZERO, columns, Filled(columns, kinds, row));
  }

  lemma ReadBackStep(codec: Codec, a: Account, columns: seq<Column>, row: map<Column, Value>)
    requires columns != []
    ensures var h := HolderOf(columns[0], row);
      var first := AssignColumn(codec, a, columns[0], h);
      ReadBack(codec, a, columns, row) == if first.Err? then first else ReadBack(codec, first.account, columns[1..], row)
  {
    var kinds := seq(|columns|, i requires 0 <= i < |columns| => ScanKind(columns[i]));
    var rest := columns[1..];
    var restKinds := seq(|rest|, i requires 0 <= i < |rest| => ScanKind(rest[i]));
    assert Filled(columns, kinds, row)[1..] == Filled(rest, restKinds, row);
  }

  /** The column holds JSON that does not decode. */
  ghost predicate BadCell(codec: Codec, c: Column, row: map<Column, Value>) {
    ScanKind(c) == JsonKind && c in row && row[c].RawV? && row[c].raw != [] && codec.decode(row[c].raw).None?
  }

  /** For every column list, of any length, with repeats and unknown names, the holders of scanValues are the
      ones that assignValues expects: reading fails exactly when some JSON column does not decode, and then the
      error names the first one. */
  lemma {:induction false} HoldersFit(codec: Codec, a: Account, columns: seq<Column>, row: map<Column, Value>)
    ensures var r := ReadBack(codec, a, columns, row);
      && (r.Err? <==> exists i :: 0 <= i < |columns| && BadCell(codec, columns[i], row))
      && (r.Err? ==> exists i :: 0 <= i < |columns| && FirstBadCell(codec, columns, row, i) && r.error == BadJson(columns[i]))
    decreases |columns|
  {
    if columns != [] {
      ReadBackStep(codec, a, columns, row);
      var h := HolderOf(columns[0], row);
      var first := AssignColumn(codec, a, columns[0], h);
      AssignsCell(codec, a, columns[0], row);
      if first.Ok? {
        var rest := columns[1..];
        HoldersFit(codec, first.account, rest, row);
        assert forall i :: 0 < i < |columns| ==> columns[i] == rest[i - 1];
        assert forall i :: 0 <= i < |rest| ==> rest[i] == columns[i + 1];
        if ReadBack(codec, first.account, rest, row).Err? {
          var i :| 0 <= i < |rest| && FirstBadCell(codec, rest, row, i) && ReadBack(codec, first.account, rest, row).error == BadJson(rest[i]);
          assert FirstBadCell(codec, columns, row, i + 1);
        }
      } else {
        assert FirstBadCell(codec, columns, row, 0);
      }
    }
  }

  ghost predicate FirstBadCell(codec: Codec, columns: seq<Column>, row: map<Column, Value>, i: nat)
    requires i < |columns|
  {
    BadCell(codec, columns[i], row) && forall j :: 0 <= j < i ==> !BadCell(codec, columns[j], row)
  }

  /** What a column of the row gives its field; nothing when it is NULL, or JSON of no bytes. */
  ghost function Cell(codec: Codec, c: Column, row: map<Column, Value>): Option<Value> {
    if c !in row || !Scans(ScanKind(c), row[c]) then None
    else if ScanKind(c) != JsonKind then Some(row[c])
    else if row[c].raw == [] || codec.decode(row[c].raw).None? then None
    else Some(JsonV(codec.decode(row[c].raw).value))
  }

  /** The struct `b` is `a` with the columns of the row that are read; the others keep what `a` has, and the
      values of unknown columns are kept beside the fields. A NULL leaves a field alone, but resets the ID. */
  ghost predicate Reads(codec: Codec, a: Account, columns: seq<Column>, row: map<Column, Value>, b: Account) {
    && b.id == (if Id !in columns then a.id else if Cell(codec, Id, row).Some? then Cell(codec, Id, row).value.i else 0)
    && b.proxyId ==
         (if ProxyId in columns && Cell(codec, ProxyId, row).Some? then Some(Cell(codec, ProxyId, row).value.i) else a.proxyId)
    && (forall c :: c in b.fields <==> c in a.fields || (IsField(c) && c in columns && Cell(codec, c, row).Some?))
    && (forall c :: c in b.fields ==>
         b.fields[c] == if IsField(c) && c in columns && Cell(codec, c, row).Some? then Cell(codec, c, row).value else a.fields[c])
    && (forall n :: n in b.selected <==> n in a.selected || Other(n) in columns)
    && (forall n :: n in b.selected ==>
         b.selected[n] == if Other(n) in columns then Holder(UnknownKind, Cell(codec, Other(n), row)) else a.selected[n])
  }

  predicate IsField(c: Column) { !c.Id? && !c.ProxyId? && !c.Other? }

  /** What AssignColumn is given for a column of the row. */
  function HolderOf(c: Column, row: map<Column, Value>): Holder {
    Holder(ScanKind(c), if c in row then Some(row[c]) else None)
  }

  lemma AssignsField(codec: Codec, a: Account, c: Column, row: map<Column, Value>)
    requires IsField(c) && !BadCell(codec, c, row)
    ensures AssignColumn(codec, a, c, HolderOf(c, row)) ==
      Ok(if Cell(codec, c, row).Some? then a.(fields := a.fields[c := Cell(codec, c, row).value]) else a)
  {
    assert AssignKind(c) == ScanKind(c);
  }

  lemma FieldReads(codec: Codec, a: Account, c: Column, row: map<Column, Value>)
    requires IsField(c)
    ensures Reads(codec, a, [c], row,
                  if Cell(codec, c, row).Some? then a.(fields := a.fields[c := Cell(codec, c, row).value]) else a)
  {
  }

  lemma AssignsKey(codec: Codec, a: Account, c: Column, row: map<Column, Value>)
    requires c.Id? || c.ProxyId?
    ensures var r := AssignColumn(codec, a, c, HolderOf(c, row)); r.Ok? && Reads(codec, a, [c], row, r.account)
  {
  }

  lemma AssignsUnknown(codec: Codec, a: Account, c: Column, row: map<Column, Value>)
    requires c.Other?
    ensures var r := AssignColumn(codec, a, c, HolderOf(c, row)); r.Ok? && Reads(codec, a, [c], row, r.account)
  {
  }

  lemma AssignsCell(codec: Codec, a: Account, c: Column, row: map<Column, Value>)
    ensures var r := AssignColumn(codec, a, c, HolderOf(c, row));
      && (r.Err? <==> BadCell(codec, c, row))
      && (r.Err? ==> r.error == BadJson(c))
      && (r.Ok? ==> Reads(codec, a, [c], row, r.account))
  {
    if c.Other? {
      AssignsUnknown(codec, a, c, row);
    } else if !IsField(c) {
      AssignsKey(codec, a, c, row);
    } else if !BadCell(codec, c, row) {
      AssignsField(codec, a, c, row);
      FieldReads(codec, a, c, row);
    } else {
      assert AssignKind(c) == ScanKind(c);
    }
  }

  lemma ReadsOneMore(codec: Codec, a: Account, b: Account, d: Account, columns: seq<Column>, row: map<Column, Value>)
    requires columns != [] && Reads(codec, a, [columns[0]], row, b) && Reads(codec, b, columns[1..], row, d)
    ensures Reads(codec, a, columns, row, d)
  {
    assert columns == [columns[0]] + columns[1..];
    assert forall c :: c in columns <==> c in [columns[0]] || c in columns[1..];
  }

  /** Reading, for every column list: the struct is the given one with exactly the columns that are read. */
  lemma {:induction false} ReadBackExact(codec: Codec, a: Account, columns: seq<Column>, row: map<Column, Value>)
    ensures var r := ReadBack(codec, a, columns, row); r.Ok? ==> Reads(codec, a, columns, row, r.account)
    decreases |columns|
  {
    if columns != [] {
      ReadBackStep(codec, a, columns, row);
      var h := HolderOf(columns[0], row);
      var first := AssignColumn(codec, a, columns[0], h);
      AssignsCell(codec, a, columns[0], row);
      if first.Ok? && ReadBack(codec, a, columns, row).Ok? {
        ReadBackExact(codec, first.account, columns[1..], row);
        ReadsOneMore(codec, a, first.account, ReadBack(codec, a, columns, row).account, columns, row);
      }
    }
  }

  // ---- Create and read agree ----

  /** The mutation's values have the types of their columns, which its typed setters see to. */
  ghost predicate Typed(m: Mutation) {
    && Id !in m.fields && ProxyId !in m.fields
    && (forall c :: c in m.fields ==> !c.Other?)
    && (forall c :: c in m.fields ==>
         if ScanKind(c) == JsonKind then m.fields[c].JsonV? else !m.fields[c].RawV? && Scans(ScanKind(c), m.fields[c]))
  }

  /** The cells of the stored row: the ID, the set fields, and the proxy if there is one. */
  ghost predicate IsStored(codec: Codec, m: Mutation, id: ID, row: map<Column, Value>) {
    && row.Keys == m.fields.Keys + {Id} + (if m.proxies != [] then {ProxyId} else {})
    && row[Id] == IntV(id)
    && (m.proxies != [] ==> row[ProxyId] == IntV(m.proxies[0]))
    && (forall c :: c in m.fields ==> row[c] == if m.fields[c].JsonV? then RawV(codec.encode(m.fields[c].j)) else m.fields[c])
  }

  lemma StoredCells(codec: Codec, m: Mutation, id: ID)
    requires Typed(m)
    ensures IsStored(codec, m, id, Stored(codec, SpecOf(m), id))
  {
    ProxyColumn((map c | c in m.fields :: if m.fields[c].JsonV? then RawV(codec.encode(m.fields[c].j)) else m.fields[c])[Id := IntV(id)], m);
  }

  lemma ProxyColumn(row: map<Column, Value>, m: Mutation)
    ensures WithProxy(row, SpecOf(m).edges) == if m.proxies != [] then row[ProxyId := IntV(m.proxies[0])] else row
  {
    var g, u := if m.groups != [] then [EdgeSpec(Groups, m.groups)] else [], if m.usageLogs != [] then [EdgeSpec(UsageLogs, m.usageLogs)] else [];
    var p := if m.proxies != [] then [EdgeSpec(Proxy, m.proxies)] else [];
    assert SpecOf(m).edges == g + (p + u);
    SkipEdges(row, g, p + u);
    assert (p + u)[|p|..] == u && u + [] == u;
    SkipEdges(if m.proxies != [] then row[ProxyId := IntV(m.proxies[0])] else row, u, []);
  }

  lemma SkipEdges(row: map<Column, Value>, skipped: seq<EdgeSpec>, rest: seq<EdgeSpec>)
    requires |skipped| <= 1 && forall e :: e in skipped ==> e.edge != Proxy
    ensures WithProxy(row, skipped + rest) == WithProxy(row, rest)
  {
    if skipped != [] {
      assert (skipped + rest)[1..] == rest;
    } else {
      assert skipped + rest == rest;
    }
  }

  /** The fields `base`, overwritten by those of `fields` that are in `seen`. */
  function Over<K, V>(base: map<K, V>, fields: map<K, V>, seen: set<K>): map<K, V> {
    base + map c | c in fields && c in seen :: fields[c]
  }

  lemma OverAgrees<K, V>(base: map<K, V>, fields: map<K, V>, seen: set<K>)
    ensures Over(base, fields, seen) == base + fields <==>
      forall c :: c in fields ==> c in seen || (c in base && base[c] == fields[c])
  {
    var read, all := Over(base, fields, seen), base + fields;
    if read == all {
      forall c | c in fields && c !in seen ensures c in base && base[c] == fields[c] {
        assert c in read && all[c] == fields[c];
      }
    }
  }

  lemma StoredField(codec: Codec, m: Mutation, id: ID, row: map<Column, Value>, c: Column)
    requires Inverse(codec) && Typed(m) && IsField(c) && IsStored(codec, m, id, row)
    ensures !BadCell(codec, c, row) && Cell(codec, c, row) == if c in m.fields then Some(m.fields[c]) else None
  {
    if c in m.fields {
      CellStored(codec, c, row, m.fields[c]);
    } else {
      assert c !in row;
    }
  }

  /** A stored value is read back. */
  lemma CellStored(codec: Codec, c: Column, row: map<Column, Value>, v: Value)
    requires Inverse(codec) && c in row && row[c] == if v.JsonV? then RawV(codec.encode(v.j)) else v
    requires if ScanKind(c) == JsonKind then v.JsonV? else !v.JsonV? && Scans(ScanKind(c), v)
    ensures !BadCell(codec, c, row) && Cell(codec, c, row) == Some(v)
  {
  }

  lemma StoredKeys(codec: Codec, m: Mutation, id: ID, row: map<Column, Value>)
    requires Typed(m) && IsStored(codec, m, id, row)
    ensures Cell(codec, Id, row) == Some(IntV(id))
    ensures Cell(codec, ProxyId, row) == if m.proxies != [] then Some(IntV(m.proxies[0])) else None
  {
  }

  /** Create and read agree: reading the stored row back through any list of the table's columns gives the node
      that createSpec returned, with the assigned ID, exactly when the list names the ID (or it is zero), the
      proxy column (or no proxy was set) and every field that was set, except fields that are not pointers and
      were set to their zero value. */
  lemma CreateReadAgree(codec: Codec, m: Mutation, id: ID, columns: seq<Column>)
    requires Inverse(codec) && Typed(m) && forall c :: c in columns ==> !c.Other?
    ensures ReadBack(codec, ZERO, columns, Stored(codec, SpecOf(m), id)) == Ok(NodeOf(m).(id := id)) <==>
      && (id == 0 || Id in columns)
      && (m.proxies == [] || ProxyId in columns)
      && (forall c :: c in m.fields && c !in columns ==>
           c in PLAIN && m.fields[c] in {TimeV(0), TextV(""), JsonV("null"), IntV(0), FloatV(0.0), BoolV(false)})
  {
    var row := Stored(codec, SpecOf(m), id);
    StoredCells(codec, m, id);
    ReadStored(codec, ZERO, m, id, row, columns);
    OverAgrees(ZERO_FIELDS, m.fields, set c | c in columns);
    forall c | c in m.fields && c in PLAIN {
      ZeroExact(c, m.fields[c]);
    }
  }

  lemma ZeroExact(c: Column, v: Value)
    requires !c.Other? && if ScanKind(c) == JsonKind then v.JsonV? else !v.RawV? && Scans(ScanKind(c), v)
    ensures v == Zero(c) <==> v in {TimeV(0), TextV(""), JsonV("null"), IntV(0), FloatV(0.0), BoolV(false)}
  {
  }

  /** What reading the stored row into a fresh struct gives. */
  lemma ReadStored(codec: Codec, a: Account, m: Mutation, id: ID, row: map<Column, Value>, columns: seq<Column>)
    requires Inverse(codec) && Typed(m) && IsStored(codec, m, id, row) && forall c :: c in columns ==> !c.Other?
    requires a.id == 0 && a.proxyId == None && a.selected == map[]
    ensures ReadBack(codec, a, columns, row) ==
      Ok(Account(if Id in columns then id else 0, Over(a.fields, m.fields, set c | c in columns),
                 if ProxyId in columns && m.proxies != [] then Some(m.proxies[0]) else None, map[]))
  {
    forall c | IsField(c) {
      StoredField(codec, m, id, row, c);
    }
    StoredKeys(codec, m, id, row);
    HoldersFit(codec, a, columns, row);
    ReadBackExact(codec, a, columns, row);
    var read := ReadBack(codec, a, columns, row).account;
    ReadsOver(codec, a, m.fields, columns, row, read);
    assert read.selected == map[];
  }

  lemma ReadsOver(codec: Codec, a: Account, fields: map<Column, Value>, columns: seq<Column>, row: map<Column, Value>, read: Account)
    requires Reads(codec, a, columns, row, read) && forall c :: c in fields ==> IsField(c)
    requires forall c :: IsField(c) ==> Cell(codec, c, row) == if c in fields then Some(fields[c]) else None
    ensures read.fields == Over(a.fields, fields, set c | c in columns)
  {
  }
}
