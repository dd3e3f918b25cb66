/** The chain of mutators is a straight line: enter the builders in index order, run the batch if all of them
    were entered, and leave them in reverse order. What every run keeps follows from that. */
module BulkLoop {
  import opened Options
  import opened Graph
  import opened AccountEdges
  import opened AccountRow
  import opened BulkCreate

  // ---- One builder's hooks ----

  /** A call of a mutator gets as far as the hook `at` that answers by itself, or, when there is none, to the
      mutator; `m` is the mutation that arrives there. */
  datatype Entry = Entry(m: Mutation, at: nat)

  function Enter(hooks: seq<Hook>, h: nat, m: Mutation): (e: Entry)
    requires h <= |hooks|
    ensures h <= e.at <= |hooks|
    ensures e.at < |hooks| ==> hooks[e.at].FailBefore? || hooks[e.at].Absorb?
    decreases |hooks| - h
  {
    if h == |hooks| || hooks[h].FailBefore? || hooks[h].Absorb? then Entry(m, h)
    else Enter(hooks, h + 1, if hooks[h].Edit? then hooks[h].edit(m) else m)
  }

  /** What a hook that does not forward answers. */
  function OwnAnswer(hook: Hook): Option<Error> {
    if hook.FailBefore? then Some(HookFailed(hook.code)) else None
  }

  /** What becomes of an answer on its way out through the hooks below `hi`, down to `h`. */
  function Back(hooks: seq<Hook>, h: nat, hi: nat, err: Option<Error>): Option<Error>
    requires h <= hi <= |hooks|
    decreases hi - h
  {
    if h == hi then err
    else
      var inner := Back(hooks, h + 1, hi, err);
      if hooks[h].After? then hooks[h].answer(inner) else inner
  }

  /** The same through all hooks of a builder. */
  function Out(hooks: seq<Hook>, err: Option<Error>): Option<Error> { Back(hooks, 0, |hooks|, err) }

  predicate Forwards(hook: Hook) { !hook.FailBefore? && !hook.Absorb? }

  lemma {:induction false} EnterFrom(a: seq<Hook>, b: seq<Hook>, h: nat, m: Mutation)
    requires h <= |a| && forall k :: 0 <= k < |a| ==> Forwards(a[k])
    ensures Enter(a, h, m).at == |a|
    ensures Enter(a + b, h, m).m == Enter(a + b, |a|, Enter(a, h, m).m).m
    ensures Enter(a + b, h, m).at == Enter(a + b, |a|, Enter(a, h, m).m).at
    decreases |a| - h
  {
    if h < |a| {
      assert (a + b)[h] == a[h];
      EnterFrom(a, b, h + 1, if a[h].Edit? then a[h].edit(m) else m);
    }
  }

  lemma {:induction false} EnterShifted(a: seq<Hook>, b: seq<Hook>, h: nat, m: Mutation)
    requires h <= |b|
    ensures Enter(a + b, |a| + h, m) == Entry(Enter(b, h, m).m, |a| + Enter(b, h, m).at)
    decreases |b| - h
  {
    if h < |b| {
      assert (a + b)[|a| + h] == b[h];
      EnterShifted(a, b, h + 1, if b[h].Edit? then b[h].edit(m) else m);
    }
  }

  lemma {:induction false} BackFrom(a: seq<Hook>, b: seq<Hook>, h: nat, err: Option<Error>)
    requires h <= |a|
    ensures Back(a + b, h, |a + b|, err) == Back(a, h, |a|, Back(a + b, |a|, |a + b|, err))
    decreases |a| - h
  {
    if h < |a| {
      assert (a + b)[h] == a[h];
      BackFrom(a, b, h + 1, err);
    }
  }

  lemma {:induction false} BackShifted(a: seq<Hook>, b: seq<Hook>, h: nat, err: Option<Error>)
    requires h <= |b|
    ensures Back(a + b, |a| + h, |a + b|, err) == Back(b, h, |b|, err)
    decreases |b| - h
  {
    if h < |b| {
      assert (a + b)[|a| + h] == b[h];
      BackShifted(a, b, h + 1, err);
    }
  }

  /** Hooks one by one: an edit changes the mutation, every other hook passes it on as it is; the mutation goes
      in through the outer hooks first, and the error comes out through the inner ones first. */
  lemma HooksInOrder(outer: seq<Hook>, inner: seq<Hook>, edit: Mutation -> Mutation, answer: Option<Error> -> Option<Error>,
                     m: Mutation, err: Option<Error>)
    ensures Enter([], 0, m).m == Enter([Forward], 0, m).m == Enter([After(answer)], 0, m).m == m
    ensures Enter([Edit(edit)], 0, m).m == edit(m)
    ensures Out([], err) == Out([Forward], err) == Out([Edit(edit)], err) == err && Out([After(answer)], err) == answer(err)
    ensures (forall k :: 0 <= k < |outer| ==> Forwards(outer[k])) ==>
      Enter(outer + inner, 0, m).m == Enter(inner, 0, Enter(outer, 0, m).m).m
    ensures Out(outer + inner, err) == Out(outer, Out(inner, err))
  {
    if forall k :: 0 <= k < |outer| ==> Forwards(outer[k]) {
      EnterFrom(outer, inner, 0, m);
      EnterShifted(outer, inner, 0, Enter(outer, 0, m).m);
    }
    BackFrom(outer, inner, 0, err);
    BackShifted(outer, inner, 0, err);
  }

  function SetMutation(s: RunState, i: nat, m: Mutation): RunState
    requires i < |s.mutations|
  {
    s.(mutations := s.mutations[i := m])
  }

  lemma {:induction false} ChainEnters(env: Env, s: RunState, i: nat, h: nat)
    requires Sized(s, |env.hooks|) && i < |env.hooks| && h <= |env.hooks[i]|
    ensures var hooks := env.hooks[i];
      var e := Enter(hooks, h, s.mutations[i]);
      var at := SetMutation(s, i, e.m);
      Chain(env, s, i, h) ==
        if e.at == |hooks| then (Core(env, at, i).0, Back(hooks, h, e.at, Core(env, at, i).1))
        else (at, Back(hooks, h, e.at, OwnAnswer(hooks[e.at])))
    decreases |env.hooks[i]| - h
  {
    assert SetMutation(s, i, s.mutations[i]) == s;
    if h < |env.hooks[i]| {
      match env.hooks[i][h]
      case Edit(edit) =>
        var edited := SetMutation(s, i, edit(s.mutations[i]));
        ChainEnters(env, edited, i, h + 1);
        assert forall m :: SetMutation(edited, i, m) == SetMutation(s, i, m);
      case After(_) => ChainEnters(env, s, i, h + 1);
      case Forward => ChainEnters(env, s, i, h + 1);
      case _ =>
    }
  }

  // ---- The straight line ----

  /** Where entering the builders stopped, at a builder whose hooks or check stop it, or at the batch; and what
      was answered there. */
  datatype Descent = Descent(state: RunState, stop: nat, err: Option<Error>)

  function Descend(env: Env, s: RunState, i: nat): (d: Descent)
    requires Sized(s, |env.hooks|) && i <= |env.hooks|
    ensures Sized(d.state, |env.hooks|) && i <= d.stop <= |env.hooks|
    decreases |env.hooks| - i
  {
    if i == |env.hooks| then
      var r := RunBatch(env, s);
      Descent(r.0, i, r.1)
    else
      var hooks := env.hooks[i];
      var e := Enter(hooks, 0, s.mutations[i]);
      var at := SetMutation(s, i, e.m);
      if e.at < |hooks| then Descent(at, i, Back(hooks, 0, e.at, OwnAnswer(hooks[e.at])))
      else
        var broken := Check(RULES, env.valid, e.m);
        if broken.Some? then Descent(at, i, Out(hooks, Some(Invalid(broken.value))))
        else Descend(env, Specify(at, i), i + 1)
  }

  /** Leaves the builders `j - 1` down to `lo`: finish one when there is no error, then pass its hooks. */
  function Ascend(env: Env, s: RunState, lo: nat, j: nat, err: Option<Error>): (r: (RunState, Option<Error>))
    requires Sized(s, |env.hooks|) && j <= |env.hooks|
    ensures Sized(r.0, |env.hooks|)
    decreases j
  {
    if j <= lo then (s, err)
    else
      var i := j - 1;
      Ascend(env, if err.None? then Finish(s, i) else s, lo, i, Out(env.hooks[i], err))
  }

  function Loop(env: Env, s: RunState): (RunState, Option<Error>)
    requires Sized(s, |env.hooks|)
  {
    var d := Descend(env, s, 0);
    Ascend(env, d.state, 0, d.stop, d.err)
  }

  lemma {:induction false} AscendLast(env: Env, s: RunState, lo: nat, j: nat, err: Option<Error>)
    requires Sized(s, |env.hooks|) && lo < j <= |env.hooks|
    ensures var r := Ascend(env, s, lo + 1, j, err);
      Ascend(env, s, lo, j, err) == (if r.1.None? then Finish(r.0, lo) else r.0, Out(env.hooks[lo], r.1))
    decreases j
  {
    if j > lo + 1 {
      AscendLast(env, if err.None? then Finish(s, j - 1) else s, lo, j - 1, Out(env.hooks[j - 1], err));
    }
  }

  /** The nested chain from builder `i` on is the straight line from there on. */
  lemma {:induction false} ChainIsLine(env: Env, s: RunState, i: nat)
    requires Sized(s, |env.hooks|) && i < |env.hooks|
    ensures var d := Descend(env, s, i); Chain(env, s, i, 0) == Ascend(env, d.state, i, d.stop, d.err)
    decreases |env.hooks| - i
  {
    var e := Enter(env.hooks[i], 0, s.mutations[i]);
    var at := SetMutation(s, i, e.m);
    ChainEnters(env, s, i, 0);
    if e.at == |env.hooks[i]| && Check(RULES, env.valid, e.m).None? {
      var next := Specify(at, i);
      var d := Descend(env, next, i + 1);
      if i < |env.hooks| - 1 {
        ChainIsLine(env, next, i + 1);
      }
      AscendLast(env, d.state, i, d.stop, d.err);
    }
  }

  /** Save refines the straight line: set all defaults, enter the builders in order, run the batch, leave in
      reverse order. State and error are the same. */
  lemma SaveIsLine(env: Env, s: RunState)
    requires Sized(s, |env.hooks|)
    ensures var s' := s.(mutations := Defaulted(env, s.mutations, |s.mutations|));
      Saved(env, s) == if |env.hooks| > 0 then Loop(env, s') else (s', None)
  {
    if |env.hooks| > 0 {
      ChainIsLine(env, s.(mutations := Defaulted(env, s.mutations, |s.mutations|)), 0);
    }
  }

  // ---- Where a run stops, and what is answered there ----

  function EntryOf(env: Env, ms: seq<Mutation>, i: nat): Entry
    requires i < |env.hooks| == |ms|
  {
    Enter(env.hooks[i], 0, ms[i])
  }

  /** Builder `i` gets through its hooks and its check. */
  predicate Passes(env: Env, ms: seq<Mutation>, i: nat)
    requires i < |env.hooks| == |ms|
  {
    EntryOf(env, ms, i).at == |env.hooks[i]| && Check(RULES, env.valid, EntryOf(env, ms, i).m).None?
  }

  predicate AllPass(env: Env, ms: seq<Mutation>)
    requires |env.hooks| == |ms|
  {
    forall i :: 0 <= i < |ms| ==> Passes(env, ms, i)
  }

  /** What stops a builder that does not pass: a hook's own answer, or the rule that check found broken. */
  function Cause(env: Env, ms: seq<Mutation>, i: nat): Option<Error>
    requires i < |env.hooks| == |ms| && !Passes(env, ms, i)
  {
    var e := EntryOf(env, ms, i);
    if e.at < |env.hooks[i]| then OwnAnswer(env.hooks[i][e.at]) else Some(Invalid(Check(RULES, env.valid, e.m).value))
  }

  /** What the call of its mutator returns then. */
  function StopAnswer(env: Env, ms: seq<Mutation>, i: nat): Option<Error>
    requires i < |env.hooks| == |ms| && !Passes(env, ms, i)
  {
    Back(env.hooks[i], 0, EntryOf(env, ms, i).at, Cause(env, ms, i))
  }

  /** The error of the batch insert. */
  function BatchError(r: BatchResult): Option<Error> {
    match r
    case Inserted(_) => None
    case Failed(constraint, msg) => Some(if constraint then Constraint(msg) else Driver(msg))
  }

  /** The specifications of all builders, in index order, after their hooks. */
  function AllSpecs(env: Env, ms: seq<Mutation>): (specs: seq<CreateSpec>)
    requires |env.hooks| == |ms|
    ensures |specs| == |env.hooks| && forall i :: 0 <= i < |specs| ==> specs[i] == SpecOf(EntryOf(env, ms, i).m)
  {
    seq(|env.hooks|, i requires 0 <= i < |env.hooks| => SpecOf(EntryOf(env, ms, i).m))
  }

  function Inserts(env: Env, ms: seq<Mutation>): BatchResult
    requires |env.hooks| == |ms|
  {
    env.insert(AllSpecs(env, ms))
  }

  /** The first builder from `i` on that does not pass. */
  function FirstStop(env: Env, ms: seq<Mutation>, i: nat): (k: nat)
    requires i <= |env.hooks| == |ms|
    ensures i <= k <= |ms| && (forall j :: i <= j < k ==> Passes(env, ms, j)) && (k < |ms| ==> !Passes(env, ms, k))
    decreases |ms| - i
  {
    if i < |ms| && Passes(env, ms, i) then FirstStop(env, ms, i + 1) else i
  }

  /** The first answer of a run: that of the builder that stops it, or that of the insert. */
  function FirstAnswer(env: Env, ms: seq<Mutation>): Option<Error>
    requires |env.hooks| == |ms|
  {
    var k := FirstStop(env, ms, 0);
    if k < |ms| then StopAnswer(env, ms, k) else BatchError(Inserts(env, ms))
  }

  /** What is left of an answer after the hooks of the builders `j - 1` down to `k`. */
  function Carried(env: Env, err: Option<Error>, j: nat, k: nat): Option<Error>
    requires k <= j <= |env.hooks|
    decreases j - k
  {
    if k == j then err else Out(env.hooks[k], Carried(env, err, j, k + 1))
  }

  /** What mutator `k` is answered by what it calls, the next mutator or the insert. */
  function Answered(env: Env, ms: seq<Mutation>, k: nat): Option<Error>
    requires |env.hooks| == |ms| && k < FirstStop(env, ms, 0)
  {
    Carried(env, FirstAnswer(env, ms), FirstStop(env, ms, 0), k + 1)
  }

  lemma {:induction false} CarriedFirst(env: Env, err: Option<Error>, j: nat, k: nat)
    requires k < j <= |env.hooks|
    ensures Carried(env, err, j, k) == Carried(env, Out(env.hooks[j - 1], err), j - 1, k)
    decreases j - k
  {
    if k < j - 1 {
      CarriedFirst(env, err, j, k + 1);
    }
  }

  // ---- Every run, exactly ----

  lemma {:induction false} GivenAll(specs: seq<Option<CreateSpec>>)
    requires forall i :: 0 <= i < |specs| ==> specs[i].Some?
    ensures |Given(specs)| == |specs| && forall i :: 0 <= i < |specs| ==> Given(specs)[i] == specs[i].value
  {
    if specs != [] {
      GivenAll(specs[1..]);
    }
  }

  /** The builders below `i` have been entered. */
  ghost predicate EnteredBelow(env: Env, ms: seq<Mutation>, s: RunState, i: nat)
    requires i <= |env.hooks| == |ms| && Sized(s, |env.hooks|)
  {
    && (forall j :: 0 <= j < i ==> Passes(env, ms, j) && s.specs[j] == Some(SpecOf(EntryOf(env, ms, j).m))
                                   && s.nodes[j] == Some(NodeOf(EntryOf(env, ms, j).m)))
    && (forall j :: i <= j < |env.hooks| ==> s.mutations[j] == ms[j])
  }

  /** What entering the builders does to a state in which nothing has been inserted yet. */
  ghost predicate Descended(env: Env, ms: seq<Mutation>, s: RunState, d: Descent)
    requires |env.hooks| == |ms| && Sized(s, |ms|) && Sized(d.state, |ms|) && d.stop <= |ms|
  {
    && (forall j :: 0 <= j < d.stop ==> d.state.nodes[j] == Some(NodeOf(EntryOf(env, ms, j).m)))
    && d.state.done == s.done && d.state.ids == s.ids
    && d.state.batches == s.batches + (if d.stop < |ms| then [] else [AllSpecs(env, ms)])
    && d.err == (if d.stop < |ms| && !Passes(env, ms, d.stop) then StopAnswer(env, ms, d.stop) else BatchError(Inserts(env, ms)))
    && d.state.specIDs ==
         if d.stop == |ms| && Inserts(env, ms).Inserted? && |Inserts(env, ms).ids| == |ms| then Inserts(env, ms).ids else s.specIDs
  }

  /** The state after entering builder `i`. */
  function Entered(env: Env, ms: seq<Mutation>, s: RunState, i: nat): (s': RunState)
    requires i < |env.hooks| == |ms| && Sized(s, |ms|)
    ensures Sized(s', |ms|) && s'.done == s.done && s'.ids == s.ids && s'.batches == s.batches && s'.specIDs == s.specIDs
  {
    Specify(SetMutation(s, i, EntryOf(env, ms, i).m), i)
  }

  lemma {:induction false} DescendExact(env: Env, ms: seq<Mutation>, s: RunState, i: nat)
    requires Sized(s, |env.hooks|) && i <= |env.hooks| == |ms| && EnteredBelow(env, ms, s, i)
    ensures var d := Descend(env, s, i); d.stop == FirstStop(env, ms, i) && Descended(env, ms, s, d)
    decreases |env.hooks| - i
  {
    if i == |env.hooks| {
      InsertsHere(env, ms, s);
    } else if Passes(env, ms, i) {
      var next := Entered(env, ms, s, i);
      EntersOneMore(env, ms, s, i);
      DescendExact(env, ms, next, i + 1);
      assert Descended(env, ms, s, Descend(env, next, i + 1));
    } else {
      StopsHere(env, ms, s, i);
    }
  }

  lemma StopsHere(env: Env, ms: seq<Mutation>, s: RunState, i: nat)
    requires i < |env.hooks| == |ms| && Sized(s, |ms|) && EnteredBelow(env, ms, s, i) && !Passes(env, ms, i)
    ensures var d := Descend(env, s, i); d.stop == i && Descended(env, ms, s, d)
  {
  }

  lemma InsertsHere(env: Env, ms: seq<Mutation>, s: RunState)
    requires |env.hooks| == |ms| && Sized(s, |ms|) && EnteredBelow(env, ms, s, |ms|)
    ensures var d := Descend(env, s, |ms|); d.stop == |ms| && Descended(env, ms, s, d)
  {
    GivenAllSpecs(env, ms, s.specs);
    RunsBatch(env, ms, s);
  }

  lemma GivenAllSpecs(env: Env, ms: seq<Mutation>, specs: seq<Option<CreateSpec>>)
    requires |env.hooks| == |ms| == |specs|
    requires forall j :: 0 <= j < |ms| ==> specs[j] == Some(SpecOf(EntryOf(env, ms, j).m))
    ensures Given(specs) == AllSpecs(env, ms)
  {
    GivenAll(specs);
  }

  lemma RunsBatch(env: Env, ms: seq<Mutation>, s: RunState)
    requires |env.hooks| == |ms| && Sized(s, |ms|) && Given(s.specs) == AllSpecs(env, ms)
    ensures var (s', err) := RunBatch(env, s);
      && Sized(s', |ms|) && s'.done == s.done && s'.ids == s.ids && s'.nodes == s.nodes
      && s'.batches == s.batches + [AllSpecs(env, ms)] && err == BatchError(Inserts(env, ms))
      && s'.specIDs == if Inserts(env, ms).Inserted? && |Inserts(env, ms).ids| == |ms| then Inserts(env, ms).ids else s.specIDs
  {
  }

  lemma EntersOneMore(env: Env, ms: seq<Mutation>, s: RunState, i: nat)
    requires i < |env.hooks| == |ms| && Sized(s, |ms|) && EnteredBelow(env, ms, s, i) && Passes(env, ms, i)
    ensures EnteredBelow(env, ms, Entered(env, ms, s, i), i + 1)
    ensures Descend(env, s, i) == Descend(env, Entered(env, ms, s, i), i + 1)
  {
  }

  function Identified(s: RunState, k: nat): Option<Account>
    requires k < |s.nodes| == |s.specIDs| && s.nodes[k].Some?
  {
    Some(if s.specIDs[k].Some? then s.nodes[k].value.(id := s.specIDs[k].value) else s.nodes[k].value)
  }

  /** Mutator `k`, one of those below `j`, is answered with success. */
  predicate Succeeds(env: Env, err: Option<Error>, j: nat, k: nat)
    requires j <= |env.hooks|
  {
    k < j && Carried(env, err, j, k + 1) == None
  }

  /** What leaving the builders below `j` does: it finishes those that are answered with success, no others. */
  ghost predicate Ascended(env: Env, s: RunState, j: nat, err: Option<Error>, s': RunState)
    requires Sized(s, |env.hooks|) && Sized(s', |env.hooks|) && j <= |env.hooks|
    requires forall k :: 0 <= k < j ==> s.nodes[k].Some?
  {
    && s'.batches == s.batches
    && (forall k :: 0 <= k < |env.hooks| ==> s'.done[k] == (Succeeds(env, err, j, k) || s.done[k]))
    && (forall k :: 0 <= k < |env.hooks| && Succeeds(env, err, j, k) ==>
         s'.nodes[k] == Identified(s, k) && s'.ids[k] == Some(s'.nodes[k].value.id))
    && (forall k :: 0 <= k < |env.hooks| && !Succeeds(env, err, j, k) ==>
         s'.nodes[k] == s.nodes[k] && s'.ids[k] == s.ids[k])
  }

  lemma {:induction false} AscendExact(env: Env, s: RunState, j: nat, err: Option<Error>)
    requires Sized(s, |env.hooks|) && j <= |env.hooks| && forall k :: 0 <= k < j ==> s.nodes[k].Some?
    ensures var (s', e) := Ascend(env, s, 0, j, err); e == Carried(env, err, j, 0) && Ascended(env, s, j, err, s')
    decreases j
  {
    if j > 0 {
      var out := Out(env.hooks[j - 1], err);
      forall k | 0 <= k < j - 1 ensures Succeeds(env, err, j, k) == Succeeds(env, out, j - 1, k) {
        CarriedFirst(env, err, j, k + 1);
      }
      CarriedFirst(env, err, j, 0);
      var next := if err.None? then Finish(s, j - 1) else s;
      AscendExact(env, next, j - 1, out);
      LeavesOneMore(env, s, j, err, Ascend(env, next, 0, j - 1, out).0);
    }
  }

  lemma LeavesOneMore(env: Env, s: RunState, j: nat, err: Option<Error>, s': RunState)
    requires Sized(s, |env.hooks|) && Sized(s', |env.hooks|) && 0 < j <= |env.hooks|
    requires forall k :: 0 <= k < j ==> s.nodes[k].Some?
    requires var out := Out(env.hooks[j - 1], err);
      && Ascended(env, if err.None? then Finish(s, j - 1) else s, j - 1, out, s')
      && forall k :: 0 <= k < j - 1 ==> Succeeds(env, err, j, k) == Succeeds(env, out, j - 1, k)
    ensures Ascended(env, s, j, err, s')
  {
    assert Succeeds(env, err, j, j - 1) <==> err.None?;
  }

  /** Save on a bulk that is not empty: down to the first stop, and back up from its answer. */
  lemma SaveDownAndUp(env: Env, ms: seq<Mutation>) returns (d: Descent)
    requires |ms| == |env.hooks| > 0
    ensures var after, (s', e) := Defaulted(env, ms, |ms|), Saved(env, Start(ms));
      && Sized(s', |ms|) && Sized(d.state, |ms|)
      && d.stop == FirstStop(env, after, 0) && d.err == FirstAnswer(env, after)
      && Descended(env, after, Start(after), d)
      && Ascended(env, d.state, d.stop, d.err, s') && e == Carried(env, d.err, d.stop, 0)
  {
    var s := Start(Defaulted(env, ms, |ms|));
    assert Start(ms).(mutations := s.mutations) == s;
    SaveIsLine(env, Start(ms));
    d := Descend(env, s, 0);
    DescendExact(env, s.mutations, s, 0);
    AscendExact(env, d.state, d.stop, d.err);
  }

  /** Save, for every bulk and all hooks: what is inserted, which mutations are marked done, and the error. */
  lemma SaveExact(env: Env, ms: seq<Mutation>)
    requires |ms| == |env.hooks|
    ensures var after, (s', e) := Defaulted(env, ms, |ms|), Saved(env, Start(ms));
      && Sized(s', |ms|)
      && s'.batches == (if |ms| > 0 && AllPass(env, after) then [AllSpecs(env, after)] else [])
      && (forall k :: 0 <= k < |ms| ==> (s'.done[k] <==> k < FirstStop(env, after, 0) && Answered(env, after, k) == None))
      && e == if |ms| == 0 then None else Carried(env, FirstAnswer(env, after), FirstStop(env, after, 0), 0)
  {
    if |ms| > 0 {
      var d := SaveDownAndUp(env, ms);
      var after := Defaulted(env, ms, |ms|);
      assert d.stop < |ms| ==> !Passes(env, after, d.stop);
      assert d.stop == |ms| <==> AllPass(env, after);
    }
  }

  /** The insert is given, for each builder, the fields of its mutation after its hooks, and edges that make of an
      account without neighbours one with those of the mutation: its groups, its proxy, its usage logs. */
  lemma InsertedExact(env: Env, ms: seq<Mutation>, b: nat, k: nat)
    requires |ms| == |env.hooks| && b < |Saved(env, Start(ms)).0.batches| && k < |ms|
    ensures var batch := Saved(env, Start(ms)).0.batches[b];
      var m := EntryOf(env, Defaulted(env, ms, |ms|), k).m;
      && |batch| == |ms| && batch[k].fields == m.fields
      && AddAll(NO_NEIGHBOURS, batch[k].edges) ==
           Neighbours(set x | x in m.groups, if m.proxies == [] then None else Some(m.proxies[0]), set x | x in m.usageLogs)
  {
    SaveExact(env, ms);
    var m := EntryOf(env, Defaulted(env, ms, |ms|), k).m;
    CreateReplay(m.groups, m.proxies, m.usageLogs);
  }

  /** A mutation that is marked done has the ID of its node, and the node is the one specified, with the ID that
      the insert reported for it, if there was one. */
  lemma DoneNodes(env: Env, ms: seq<Mutation>, k: nat)
    requires k < |ms| == |env.hooks| && Saved(env, Start(ms)).0.done[k]
    ensures var after, s' := Defaulted(env, ms, |ms|), Saved(env, Start(ms)).0;
      && s'.ids[k].Some? && s'.nodes[k] == Some(NodeOf(EntryOf(env, after, k).m).(id := s'.ids[k].value))
      && s'.ids[k].value ==
        if AllPass(env, after) && Inserts(env, after).Inserted? && |Inserts(env, after).ids| == |ms| && Inserts(env, after).ids[k].Some?
        then Inserts(env, after).ids[k].value else 0
  {
    var d := SaveDownAndUp(env, ms);
    var after := Defaulted(env, ms, |ms|);
    assert d.stop < |ms| ==> !Passes(env, after, d.stop);
    assert d.state.nodes[k] == Some(NodeOf(EntryOf(env, after, k).m));
    assert Saved(env, Start(ms)).0.nodes[k] == Identified(d.state, k);
  }

  // ---- What every run keeps ----

  /** The batch runs at most once: when there are builders and all of them pass, on all specifications in order. */
  lemma BatchOnce(env: Env, ms: seq<Mutation>)
    requires |ms| == |env.hooks|
    ensures var after := Defaulted(env, ms, |ms|);
      Saved(env, Start(ms)).0.batches == if |ms| > 0 && AllPass(env, after) then [AllSpecs(env, after)] else []
  {
    SaveExact(env, ms);
  }

  /** No hook turns an error that comes back into success. */
  ghost predicate NoRecovery(env: Env) {
    forall i, h :: 0 <= i < |env.hooks| && 0 <= h < |env.hooks[i]| ==> !Recovers(env.hooks[i][h])
  }

  ghost predicate Recovers(hook: Hook) {
    hook.After? && exists e: Error :: hook.answer(Some(e)) == None
  }

  /** Nor does any hook answer with success without forwarding. */
  ghost predicate Honest(env: Env) {
    NoRecovery(env) && forall i, h :: 0 <= i < |env.hooks| && 0 <= h < |env.hooks[i]| ==> !env.hooks[i][h].Absorb?
  }

  lemma {:induction false} ErrorBack(hooks: seq<Hook>, h: nat, hi: nat, err: Option<Error>)
    requires h <= hi <= |hooks| && forall k :: 0 <= k < |hooks| ==> !Recovers(hooks[k])
    requires err.Some?
    ensures Back(hooks, h, hi, err).Some?
    decreases hi - h
  {
    if h < hi {
      ErrorBack(hooks, h + 1, hi, err);
      assert !Recovers(hooks[h]);
    }
  }

  lemma {:induction false} ErrorCarried(env: Env, err: Option<Error>, j: nat, k: nat)
    requires NoRecovery(env) && k <= j <= |env.hooks| && err.Some?
    ensures Carried(env, err, j, k).Some?
    decreases j - k
  {
    if k < j {
      ErrorCarried(env, err, j, k + 1);
      ErrorBack(env.hooks[k], 0, |env.hooks[k]|, Carried(env, err, j, k + 1));
    }
  }

  lemma HonestStop(env: Env, ms: seq<Mutation>)
    requires Honest(env) && |ms| == |env.hooks|
    ensures FirstStop(env, ms, 0) < |ms| ==> FirstAnswer(env, ms).Some?
  {
    var k := FirstStop(env, ms, 0);
    if k < |ms| {
      var at := EntryOf(env, ms, k).at;
      assert at < |env.hooks[k]| ==> !env.hooks[k][at].Absorb?;
      ErrorBack(env.hooks[k], 0, at, Cause(env, ms, k));
    }
  }

  /** The least builder from which on all below `j` are answered with success, when errors stay errors. */
  lemma {:induction false} SucceedsFrom(env: Env, err: Option<Error>, j: nat) returns (lo: nat)
    requires Honest(env) && j <= |env.hooks|
    ensures lo <= j && forall k :: 0 <= k < j ==> (Succeeds(env, err, j, k) <==> lo <= k)
    decreases j
  {
    if j == 0 || err.Some? {
      lo := j;
      forall k | 0 <= k < j ensures !Succeeds(env, err, j, k) {
        ErrorCarried(env, err, j, k + 1);
      }
    } else {
      var out := Out(env.hooks[j - 1], err);
      lo := SucceedsFrom(env, out, j - 1);
      forall k | 0 <= k < j - 1 ensures Succeeds(env, err, j, k) == Succeeds(env, out, j - 1, k) {
        CarriedFirst(env, err, j, k + 1);
      }
    }
  }

  /** In every run the mutations marked done are those from some index on, and none at all unless the batch
      insert ran and succeeded. This includes runs in which hooks fail after forwarding. */
  lemma DoneIsSuffix(env: Env, ms: seq<Mutation>) returns (lo: nat)
    requires |ms| == |env.hooks| && Honest(env)
    ensures lo <= |ms|
    ensures var after, s' := Defaulted(env, ms, |ms|), Saved(env, Start(ms)).0;
      && Sized(s', |ms|) && (forall k :: 0 <= k < |ms| ==> (s'.done[k] <==> lo <= k))
      && (lo < |ms| ==> s'.batches == [AllSpecs(env, after)] && Inserts(env, after).Inserted?)
  {
    var after := Defaulted(env, ms, |ms|);
    SaveExact(env, ms);
    HonestStop(env, after);
    var stop, first := FirstStop(env, after, 0), FirstAnswer(env, after);
    lo := SucceedsFrom(env, first, stop);
    assert forall k :: 0 <= k < stop ==> (Succeeds(env, first, stop, k) <==> Answered(env, after, k) == None);
    if first.Some? {
      forall k | 0 <= k < stop ensures !Succeeds(env, first, stop, k) {
        ErrorCarried(env, first, stop, k + 1);
      }
      lo := |ms|;
    }
  }

  lemma {:induction false} QuietCarried(env: Env, j: nat, k: nat)
    requires Honest(env) && k <= j <= |env.hooks|
    ensures Carried(env, None, j, k) == None <==> forall i :: k <= i < j ==> Out(env.hooks[i], None) == None
    decreases j - k
  {
    if k < j {
      QuietCarried(env, j, k + 1);
      if Carried(env, None, j, k + 1).Some? {
        ErrorBack(env.hooks[k], 0, |env.hooks[k]|, Carried(env, None, j, k + 1));
      }
    }
  }

  /** Save succeeds exactly when there are no builders, or all pass, the insert succeeds and no hook fails
      afterwards. Then every mutation is done, and every node is the one specified, with its reported ID. */
  lemma SuccessExact(env: Env, ms: seq<Mutation>)
    requires |ms| == |env.hooks| && Honest(env)
    ensures var after, (s', e) := Defaulted(env, ms, |ms|), Saved(env, Start(ms));
      var r := Inserts(env, after);
      && Sized(s', |ms|)
      && (e == None <==>
           (|ms| == 0 || (AllPass(env, after) && r.Inserted? && forall i :: 0 <= i < |ms| ==> Out(env.hooks[i], None) == None)))
      && (e == None ==> forall k :: 0 <= k < |ms| ==>
           && s'.done[k] && s'.ids[k].Some?
           && s'.nodes[k] == Some(NodeOf(EntryOf(env, after, k).m).(id := s'.ids[k].value))
           && (|r.ids| == |ms| && r.ids[k].Some? ==> s'.ids[k] == r.ids[k]))
  {
    var after := Defaulted(env, ms, |ms|);
    SaveExact(env, ms);
    HonestStop(env, after);
    var stop, first := FirstStop(env, after, 0), FirstAnswer(env, after);
    if first.Some? {
      ErrorCarried(env, first, stop, 0);
    } else {
      QuietCarried(env, stop, 0);
      if Carried(env, None, stop, 0) == None {
        forall k | 0 <= k < |ms| ensures Answered(env, after, k) == None {
          QuietCarried(env, stop, k + 1);
        }
      }
    }
    if Saved(env, Start(ms)).1 == None {
      forall k | 0 <= k < |ms| {
        DoneNodes(env, ms, k);
      }
    }
  }

  /** No hook answers with success without forwarding, and an error that comes back stays as it is. */
  ghost predicate KeepsErrors(env: Env) {
    forall i, h :: 0 <= i < |env.hooks| && 0 <= h < |env.hooks[i]| ==> KeepingHook(env.hooks[i][h])
  }

  ghost predicate KeepingHook(hook: Hook) {
    !hook.Absorb? && (hook.After? ==> forall e: Error :: hook.answer(Some(e)) == Some(e))
  }

  lemma {:induction false} KeptBack(hooks: seq<Hook>, h: nat, hi: nat, err: Option<Error>)
    requires h <= hi <= |hooks| && forall k :: 0 <= k < |hooks| ==> KeepingHook(hooks[k])
    requires err.Some?
    ensures Back(hooks, h, hi, err) == err
    decreases hi - h
  {
    if h < hi {
      KeptBack(hooks, h + 1, hi, err);
      assert KeepingHook(hooks[h]);
    }
  }

  lemma {:induction false} KeptCarried(env: Env, err: Option<Error>, j: nat, k: nat)
    requires KeepsErrors(env) && k <= j <= |env.hooks| && err.Some?
    ensures Carried(env, err, j, k) == err
    decreases j - k
  {
    if k < j {
      KeptCarried(env, err, j, k + 1);
      KeptBack(env.hooks[k], 0, |env.hooks[k]|, err);
    }
  }

  /** When hooks keep errors, the error is what stopped the first builder, in index order, whose hook or check
      fails; when all pass and the insert fails, it is the error of the insert. An empty bulk has no error. */
  lemma FirstError(env: Env, ms: seq<Mutation>)
    requires |ms| == |env.hooks| && KeepsErrors(env)
    ensures var after, e := Defaulted(env, ms, |ms|), Saved(env, Start(ms)).1;
      var first := FirstStop(env, after, 0);
      && (first < |ms| ==>
           var entry := EntryOf(env, after, first);
           if entry.at < |env.hooks[first]| then
             env.hooks[first][entry.at].FailBefore? && e == Some(HookFailed(env.hooks[first][entry.at].code))
           else
             exists i :: 0 <= i < |RULES| && FirstBroken(RULES, env.valid, entry.m, i) && e == Some(Invalid(RULES[i])))
      && (first == |ms| > 0 && Inserts(env, after).Failed? ==>
           e == Some(if Inserts(env, after).constraint then Constraint(Inserts(env, after).msg) else Driver(Inserts(env, after).msg)))
      && (|ms| == 0 ==> e == None)
  {
    var after := Defaulted(env, ms, |ms|);
    SaveExact(env, ms);
    var stop, first := FirstStop(env, after, 0), FirstAnswer(env, after);
    if stop < |ms| {
      KeptCause(env, after, stop);
      CheckPasses(RULES, env.valid, EntryOf(env, after, stop).m);
    }
    if first.Some? {
      KeptCarried(env, first, stop, 0);
    }
  }

  lemma KeptCause(env: Env, ms: seq<Mutation>, i: nat)
    requires i < |ms| == |env.hooks| && KeepsErrors(env) && !Passes(env, ms, i)
    ensures Cause(env, ms, i).Some? && StopAnswer(env, ms, i) == Cause(env, ms, i)
    ensures EntryOf(env, ms, i).at < |env.hooks[i]| ==> env.hooks[i][EntryOf(env, ms, i).at].FailBefore?
  {
    var at := EntryOf(env, ms, i).at;
    assert at < |env.hooks[i]| ==> KeepingHook(env.hooks[i][at]);
    KeptBack(env.hooks[i], 0, at, Cause(env, ms, i));
  }

  /** The insert ran and succeeded. */
  predicate Succeeded(env: Env, ms: seq<Mutation>)
    requires |env.hooks| == |ms|
  {
    |ms| > 0 && AllPass(env, ms) && Inserts(env, ms).Inserted?
  }

  /** The answer at the stop of a run has become a success when it comes to builder `k - 1`. */
  predicate Silenced(env: Env, ms: seq<Mutation>, k: nat)
    requires |env.hooks| == |ms|
  {
    0 < k <= FirstStop(env, ms, 0) && Carried(env, FirstAnswer(env, ms), FirstStop(env, ms, 0), k) == None
  }

  predicate AnyDone(s: RunState) { exists k :: 0 <= k < |s.done| && s.done[k] }

  /** For all hooks: a mutation is marked done although no insert succeeded exactly when the run stops, at a
      builder or at the insert, and what is answered there has become a success before it reaches some mutator:
      because a hook of the stopping builder absorbs the call, or because a hook on the way back recovers. */
  lemma DoneWithoutInsertExact(env: Env, ms: seq<Mutation>)
    requires |ms| == |env.hooks|
    ensures var after := Defaulted(env, ms, |ms|);
      !Succeeded(env, after) ==>
        (AnyDone(Saved(env, Start(ms)).0) <==> exists k :: 0 < k <= |ms| && Silenced(env, after, k))
  {
    var after, s' := Defaulted(env, ms, |ms|), Saved(env, Start(ms)).0;
    SaveExact(env, ms);
    if k :| 0 < k <= |ms| && Silenced(env, after, k) {
      assert Answered(env, after, k - 1) == None;
      assert s'.done[k - 1];
    }
    if AnyDone(s') {
      var k :| 0 <= k < |s'.done| && s'.done[k];
      assert Silenced(env, after, k + 1);
    }
  }

  /** Without recovering hooks absorption is the only way: some builder but the first stops the run, and the
      answer of its own hooks is a success. */
  lemma AbsorbIsOnlyWay(env: Env, ms: seq<Mutation>)
    requires |ms| == |env.hooks| && NoRecovery(env)
    ensures var after := Defaulted(env, ms, |ms|);
      var stop := FirstStop(env, after, 0);
      !Succeeded(env, after) ==>
        (AnyDone(Saved(env, Start(ms)).0) <==>
          0 < stop < |ms| && Cause(env, after, stop) == None && StopAnswer(env, after, stop) == None)
  {
    var after := Defaulted(env, ms, |ms|);
    DoneWithoutInsertExact(env, ms);
    if !Succeeded(env, after) {
      forall k | 0 < k <= |ms| && Silenced(env, after, k) {
        SilencedAtStop(env, after, k);
      }
      var stop := FirstStop(env, after, 0);
      if 0 < stop < |ms| && StopAnswer(env, after, stop) == None {
        assert Silenced(env, after, stop);
      }
    }
  }

  lemma SilencedAtStop(env: Env, ms: seq<Mutation>, k: nat)
    requires |ms| == |env.hooks| && NoRecovery(env) && !Succeeded(env, ms) && Silenced(env, ms, k)
    ensures var stop := FirstStop(env, ms, 0);
      0 < stop < |ms| && Cause(env, ms, stop) == None && StopAnswer(env, ms, stop) == None
  {
    var stop, first := FirstStop(env, ms, 0), FirstAnswer(env, ms);
    assert stop == |ms| ==> AllPass(env, ms);
    if first.Some? {
      ErrorCarried(env, first, stop, k);
    } else {
      SuccessIsOwn(env, ms, stop);
    }
  }

  lemma SuccessIsOwn(env: Env, ms: seq<Mutation>, i: nat)
    requires i < |ms| == |env.hooks| && NoRecovery(env) && !Passes(env, ms, i) && StopAnswer(env, ms, i) == None
    ensures Cause(env, ms, i) == None
  {
    var e := Cause(env, ms, i);
    if e.Some? {
      ErrorBack(env.hooks[i], 0, EntryOf(env, ms, i).at, e);
    }
  }

  // ---- Dropped errors of defaults ----

  lemma {:induction false} UneditedEntry(hooks: seq<Hook>, h: nat, m: Mutation)
    requires h <= |hooks| && forall k :: 0 <= k < |hooks| ==> !hooks[k].Edit?
    ensures Enter(hooks, h, m).m == m
    decreases |hooks| - h
  {
    if h < |hooks| && !hooks[h].FailBefore? && !hooks[h].Absorb? {
      UneditedEntry(hooks, h + 1, m);
    }
  }

  /** Save drops the errors of defaults. When hooks leave the mutations alone this is safe: a builder whose
      defaults failed keeps the batch from running. */
  lemma DroppedDefaultsError(env: Env, ms: seq<Mutation>, i: nat)
    requires |ms| == |env.hooks| && i < |ms| && Defaults(DEFAULTED, env.defaults, ms[i]).missing.Some?
    requires forall j, h :: 0 <= j < |env.hooks| && 0 <= h < |env.hooks[j]| ==> !env.hooks[j][h].Edit?
    ensures Saved(env, Start(ms)).0.batches == []
  {
    var after := Defaulted(env, ms, |ms|);
    BatchOnce(env, ms);
    UneditedEntry(env.hooks[i], 0, after[i]);
    FailedDefaultsFailCheck(env.defaults, env.valid, ms[i]);
    assert !Passes(env, after, i);
  }
}
