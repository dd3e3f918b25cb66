/** Bulk creation: a chain of mutators, each wrapped in its builder's hooks, in which every mutator checks
    and specifies its own builder, calls the next one, and finishes after that call returned. The last one
    runs the one batch insert. Mutations, specifications and nodes are the slices of the original, indexed
    by builder. */
module BulkCreate {
  import opened Options
  import opened Graph
  import opened AccountRow

  datatype Error = Prior(msg: string) | Invalid(rule: Rule) | HookFailed(code: int) | Constraint(msg: string) | Driver(msg: string)

  /** What a hook does around the mutator it wraps. A hook that edits changes the mutation in place and forwards
      the same object. `After` forwards and then answers with any function of the error that came back: it may
      fail on success, replace an error, or recover from it. A hook may also answer by itself, with an error or
      with success, and not forward at all. */
  datatype Hook =
    | Forward
    | Edit(edit: Mutation -> Mutation)
    | FailBefore(code: int)
    | Absorb
    | After(answer: Option<Error> -> Option<Error>)

  /** The batch insert: the IDs it reports for the specifications, or its error. */
  datatype BatchResult = Inserted(ids: seq<Option<ID>>) | Failed(constraint: bool, msg: string)

  datatype Env = Env(
    hooks: seq<seq<Hook>>,
    defaults: map<Column, Value>,
    valid: (Column, Value) -> bool,
    insert: seq<CreateSpec> -> BatchResult)

  /** The state of a run. `specIDs` are the IDs that the batch leaves in the specifications, `done` the flags
      and `ids` the ID pointers of the mutations, and `batches` the batch inserts run so far. */
  datatype RunState = RunState(
    mutations: seq<Mutation>,
    specs: seq<Option<CreateSpec>>,
    specIDs: seq<Option<ID>>,
    nodes: seq<Option<Account>>,
    done: seq<bool>,
    ids: seq<Option<ID>>,
    batches: seq<seq<CreateSpec>>)

  predicate Sized(s: RunState, n: nat) {
    |s.mutations| == |s.specs| == |s.specIDs| == |s.nodes| == |s.done| == |s.ids| == n
  }

  // ---- The steps of a mutator ----

  /** createSpec for builder `i`. */
  function Specify(s: RunState, i: nat): RunState
    requires i < |s.mutations| && Sized(s, |s.mutations|)
  {
    s.(specs := s.specs[i := Some(SpecOf(s.mutations[i]))], nodes := s.nodes[i := Some(NodeOf(s.mutations[i]))])
  }

  /** What follows a successful call of the next mutator: copy the ID that the batch reported, and mark the
      mutation done. */
  function Finish(s: RunState, i: nat): RunState
    requires i < |s.mutations| && Sized(s, |s.mutations|)
  {
    if s.nodes[i].None? then s
    else
      var node := if s.specIDs[i].Some? then s.nodes[i].value.(id := s.specIDs[i].value) else s.nodes[i].value;
      s.(nodes := s.nodes[i := Some(node)], ids := s.ids[i := Some(node.id)], done := s.done[i := true])
  }

  /** The specifications handed to the batch. */
  function Given(specs: seq<Option<CreateSpec>>): seq<CreateSpec> {
    if specs == [] then []
    else (if specs[0].Some? then [specs[0].value] else []) + Given(specs[1..])
  }

  function RunBatch(env: Env, s: RunState): (RunState, Option<Error>) {
    var given := Given(s.specs);
    var s' := s.(batches := s.batches + [given]);
    match env.insert(given)
    case Failed(constraint, msg) => (s', Some(if constraint then Constraint(msg) else Driver(msg)))
    case Inserted(ids) => (if |ids| == |s.specIDs| then s'.(specIDs := ids) else s', None)
  }

  // ---- The chain, as it runs ----

  function Chain(env: Env, s: RunState, i: nat, h: nat): (r: (RunState, Option<Error>))
    requires Sized(s, |env.hooks|) && i < |env.hooks| && h <= |env.hooks[i]|
    ensures Sized(r.0, |env.hooks|)
    decreases |env.hooks| - i, 1, |env.hooks[i]| - h
  {
    if h == |env.hooks[i]| then Core(env, s, i)
    else
      match env.hooks[i][h]
      case Forward => Chain(env, s, i, h + 1)
      case Edit(edit) => Chain(env, s.(mutations := s.mutations[i := edit(s.mutations[i])]), i, h + 1)
      case FailBefore(code) => (s, Some(HookFailed(code)))
      case Absorb => (s, None)
      case After(answer) => var r := Chain(env, s, i, h + 1); (r.0, answer(r.1))
  }

  function Core(env: Env, s: RunState, i: nat): (r: (RunState, Option<Error>))
    requires Sized(s, |env.hooks|) && i < |env.hooks|
    ensures Sized(r.0, |env.hooks|)
    decreases |env.hooks| - i, 0
  {
    var broken := Check(RULES, env.valid, s.mutations[i]);
    if broken.Some? then (s, Some(Invalid(broken.value)))
    else
      var r := if i < |env.hooks| - 1 then Chain(env, Specify(s, i), i + 1, 0) else RunBatch(env, Specify(s, i));
      if r.1.Some? then r else (Finish(r.0, i), None)
  }

  /** The bulk builder. */
  class AccountCreateBulk {
    const env: Env
    const err: Option<Error>
    var mutations: seq<Mutation>
    var specs: seq<Option<CreateSpec>>
    var specIDs: seq<Option<ID>>
    var nodes: seq<Option<Account>>
    var done: seq<bool>
    var ids: seq<Option<ID>>
    var batches: seq<seq<CreateSpec>>

    constructor (env: Env, err: Option<Error>, mutations: seq<Mutation>)
      requires |mutations| == |env.hooks|
      ensures this.env == env && this.err == err && Now() == Start(mutations)
    {
      this.env, this.err := env, err;
      var n := |mutations|;
      this.mutations, specs, specIDs := mutations, seq(n, _ => None), seq(n, _ => None);
      nodes, done, ids, batches := seq(n, _ => None), seq(n, _ => false), seq(n, _ => None), [];
    }

    function Now(): RunState
      reads this
    {
      RunState(mutations, specs, specIDs, nodes, done, ids, batches)
    }

    /** Calls mutator `i` from its hook number `h` on. */
    method Mutate(i: nat, h: nat) returns (e: Option<Error>)
      requires Sized(Now(), |env.hooks|) && i < |env.hooks| && h <= |env.hooks[i]|
      modifies this
      ensures Sized(Now(), |env.hooks|) && (Now(), e) == Chain(env, old(Now()), i, h)
      decreases |env.hooks| - i, 1, |env.hooks[i]| - h
    {
      if h == |env.hooks[i]| {
        e := Run(i);
      } else {
        match env.hooks[i][h]
        case Forward =>
          e := Mutate(i, h + 1);
        case Edit(edit) =>
          mutations := mutations[i := edit(mutations[i])];
          e := Mutate(i, h + 1);
        case FailBefore(code) =>
          e := Some(HookFailed(code));
        case Absorb =>
          e := None;
        case After(answer) =>
          e := Mutate(i, h + 1);
          e := answer(e);
      }
    }

    /** The mutator proper of builder `i`. */
    method Run(i: nat) returns (e: Option<Error>)
      requires Sized(Now(), |env.hooks|) && i < |env.hooks|
      modifies this
      ensures Sized(Now(), |env.hooks|) && (Now(), e) == Core(env, old(Now()), i)
      decreases |env.hooks| - i, 0
    {
      var broken := Check(RULES, env.valid, mutations[i]);
      if broken.Some? {
        return Some(Invalid(broken.value));
      }
      nodes, specs := nodes[i := Some(NodeOf(mutations[i]))], specs[i := Some(SpecOf(mutations[i]))];
      if i < |env.hooks| - 1 {
        e := Mutate(i + 1, 0);
      } else {
        e := Insert();
      }
      if e.Some? {
        return;
      }
      FinishOne(i);
    }

    method FinishOne(i: nat)
      requires Sized(Now(), |env.hooks|) && i < |env.hooks|
      modifies this
      ensures Now() == Finish(old(Now()), i)
    {
      if nodes[i].Some? {
        var node := nodes[i].value;
        if specIDs[i].Some? {
          node := node.(id := specIDs[i].value);
        }
        nodes, ids, done := nodes[i := Some(node)], ids[i := Some(node.id)], done[i := true];
      }
    }

    method Insert() returns (e: Option<Error>)
      requires Sized(Now(), |env.hooks|)
      modifies this
      ensures Sized(Now(), |env.hooks|) && (Now(), e) == RunBatch(env, old(Now()))
    {
      var given := Given(specs);
      batches := batches + [given];
      match env.insert(given)
      case Failed(constraint, msg) =>
        e := Some(if constraint then Constraint(msg) else Driver(msg));
      case Inserted(reported) =>
        if |reported| == |specIDs| {
          specIDs := reported;
        }
        e := None;
    }

    /** Sets the defaults of every builder, dropping their errors, and starts the chain. */
    method Save() returns (e: Option<Error>)
      requires Sized(Now(), |env.hooks|)
      modifies this
      ensures Sized(Now(), |env.hooks|)
      ensures err.Some? ==> e == err && Now() == old(Now())
      ensures err.None? ==> (Now(), e) == Saved(env, old(Now()))
    {
      if err.Some? {
        return err;
      }
      for i := 0 to |mutations|
        invariant Sized(Now(), |env.hooks|)
        invariant Now() == old(Now()).(mutations := Defaulted(env, old(mutations), i))
      {
        mutations := mutations[i := Defaults(DEFAULTED, env.defaults, mutations[i]).mutation];
      }
      e := None;
      if |env.hooks| > 0 {
        e := Mutate(0, 0);
      }
    }
  }

  function Start(mutations: seq<Mutation>): RunState {
    var n := |mutations|;
    RunState(mutations, seq(n, _ => None), seq(n, _ => None), seq(n, _ => None), seq(n, _ => false), seq(n, _ => None), [])
  }

  /** The mutations after the defaults of the first `n` builders. */
  function Defaulted(env: Env, ms: seq<Mutation>, n: nat): (r: seq<Mutation>)
    requires n <= |ms|
    ensures |r| == |ms|
    ensures forall j :: 0 <= j < |ms| ==> r[j] == if j < n then Defaults(DEFAULTED, env.defaults, ms[j]).mutation else ms[j]
  {
    if n == 0 then ms else Defaulted(env, ms, n - 1)[n - 1 := Defaults(DEFAULTED, env.defaults, ms[n - 1]).mutation]
  }

  function Saved(env: Env, s: RunState): (RunState, Option<Error>)
    requires Sized(s, |env.hooks|)
  {
    var s' := s.(mutations := Defaulted(env, s.mutations, |s.mutations|));
    if |env.hooks| > 0 then Chain(env, s', 0, 0) else (s', None)
  }
}
