/** Ordered listings of row sets, and selecting parallel positions out of several lists at once. */
module Listing {
  import opened Options
  import opened Graph

  /** `rows` lists exactly the members of `s`, each once. */
  ghost predicate Lists<T(!new)>(rows: seq<T>, s: set<T>) {
    && (forall i, j :: 0 <= i < j < |rows| ==> rows[i] != rows[j])
    && (forall r :: r in rows <==> r in s)
  }

  ghost predicate NoRepeats<T(!new)>(rows: seq<T>) {
    forall i, j :: 0 <= i < j < |rows| ==> rows[i] != rows[j]
  }

  ghost predicate Ordered<T(!new)>(rows: seq<T>, rank: T -> int) {
    forall i, j :: 0 <= i < j < |rows| ==> rank(rows[i]) <= rank(rows[j])
  }

  /** `rows` is a possible answer to "select s order by rank". */
  ghost predicate Answer<T(!new)>(rows: seq<T>, s: set<T>, rank: T -> int) {
    Lists(rows, s) && Ordered(rows, rank)
  }

  /** The positions below `j` at which `sel` holds, ascending. */
  function Chosen(sel: seq<bool>, j: nat): (idx: seq<nat>)
    requires j <= |sel|
    ensures forall m :: 0 <= m < |idx| ==> idx[m] < j && sel[idx[m]]
    ensures forall m, n :: 0 <= m < n < |idx| ==> idx[m] < idx[n]
    ensures forall i :: 0 <= i < j && sel[i] ==> i in idx
  {
    if j == 0 then []
    else if sel[j - 1] then Chosen(sel, j - 1) + [j - 1]
    else Chosen(sel, j - 1)
  }

  /** The elements of `xs` at those positions, gathered one at a time. */
  function Pick<T>(xs: seq<T>, sel: seq<bool>, j: nat): seq<T>
    requires j <= |xs| == |sel|
  {
    if j == 0 then [] else Pick(xs, sel, j - 1) + if sel[j - 1] then [xs[j - 1]] else []
  }

  lemma {:induction false} PickAt<T>(xs: seq<T>, sel: seq<bool>, j: nat)
    requires j <= |xs| == |sel|
    ensures |Pick(xs, sel, j)| == |Chosen(sel, j)|
    ensures forall m :: 0 <= m < |Chosen(sel, j)| ==> Pick(xs, sel, j)[m] == xs[Chosen(sel, j)[m]]
  {
    if j > 0 {
      PickAt(xs, sel, j - 1);
    }
  }

  lemma {:induction false} PickMember(rows: seq<Row>, sel: seq<bool>, j: nat, r: Row)
    requires j <= |rows| == |sel|
    ensures r in Pick(rows, sel, j) <==> exists m :: 0 <= m < j && sel[m] && rows[m] == r
  {
    if j > 0 {
      PickMember(rows, sel, j - 1, r);
    }
  }

  lemma PickSorted(rows: seq<Row>, sel: seq<bool>, rank: Row -> int)
    requires |sel| == |rows| && Ordered(rows, rank) && forall i, j :: 0 <= i < j < |rows| ==> rows[i] != rows[j]
    ensures var ys := Pick(rows, sel, |rows|); Ordered(ys, rank) && forall i, j :: 0 <= i < j < |ys| ==> ys[i] != ys[j]
  {
    PickAt(rows, sel, |rows|);
  }

  /** Picking from an answer the rows of a subset gives an answer for the subset. */
  lemma PickAnswers(rows: seq<Row>, s: set<Row>, rank: Row -> int, sel: seq<bool>, sub: set<Row>)
    requires Answer(rows, s, rank) && |sel| == |rows| && sub <= s
    requires forall j :: 0 <= j < |rows| ==> (sel[j] <==> rows[j] in sub)
    ensures Answer(Pick(rows, sel, |rows|), sub, rank)
  {
    PickSorted(rows, sel, rank);
    forall r ensures r in Pick(rows, sel, |rows|) <==> r in sub {
      PickMember(rows, sel, |rows|, r);
      assert r in sub ==> r in rows;
    }
  }

  /** `rows` is a page of some answer to "select s order by rank": behind the offset, and no more than the limit,
      with a limit of zero as none. */
  ghost predicate PageOfAnswer<T(!new)>(rows: seq<T>, s: set<T>, rank: T -> int, limit: Option<nat>, offset: Option<nat>) {
    var skip := match offset case None => 0 case Some(o) => o;
    var rest := if skip < |s| then |s| - skip else 0;
    && |rows| == (match limit case None => rest case Some(n) => if 0 < n < rest then n else rest)
    && exists all :: Answer(all, s, rank) && IsSlice(rows, all, skip)
  }

  /** `rows` stands in `all`, from position `skip` on. */
  ghost predicate IsSlice<T>(rows: seq<T>, all: seq<T>, skip: nat) {
    forall i :: 0 <= i < |rows| ==> skip + i < |all| && rows[i] == all[skip + i]
  }

  lemma PageExact<T(!new)>(all: seq<T>, s: set<T>, rank: T -> int, limit: Option<nat>, offset: Option<nat>)
    requires Answer(all, s, rank)
    ensures PageOfAnswer(Page(all, OrZero(limit), OrZero(offset)), s, rank, limit, offset)
  {
    AnswerLength(all, s, rank);
    assert IsSlice(Page(all, OrZero(limit), OrZero(offset)), all, OrZero(offset));
  }

  // ---- Answers are determined when the sort key has no ties ----

  ghost predicate NoTies(s: set<Row>, rank: Row -> int) {
    forall r, t :: r in s && t in s && rank(r) == rank(t) ==> r == t
  }

  lemma EmptyAnswer<T(!new)>(rows: seq<T>, s: set<T>, rank: T -> int)
    requires Answer(rows, s, rank)
    ensures rows == [] <==> s == {}
  {
    if rows != [] {
      assert rows[0] in rows;
    }
  }

  lemma {:induction false} AnswerLength<T(!new)>(rows: seq<T>, s: set<T>, rank: T -> int)
    requires Answer(rows, s, rank)
    ensures |rows| == |s|
    decreases |rows|
  {
    EmptyAnswer(rows, s, rank);
    if rows != [] {
      assert rows[0] in rows;
      TailAnswers(rows, s, rank);
      AnswerLength(rows[1..], s - {rows[0]}, rank);
    }
  }

  lemma {:induction false} AnswerUnique(a: seq<Row>, b: seq<Row>, s: set<Row>, rank: Row -> int)
    requires Answer(a, s, rank) && Answer(b, s, rank) && NoTies(s, rank)
    ensures a == b
    decreases |a|
  {
    if a == [] {
      EmptyAnswer(a, s, rank);
      EmptyAnswer(b, s, rank);
    } else {
      var x := a[0];
      assert x in s && x in b;
      assert b[0] in s && b[0] in a;
      assert rank(a[0]) <= rank(b[0]) && rank(b[0]) <= rank(a[0]);
      assert b[0] == x;
      TailAnswers(a, s, rank);
      TailAnswers(b, s, rank);
      AnswerUnique(a[1..], b[1..], s - {x}, rank);
      assert a == [x] + a[1..] && b == [x] + b[1..];
    }
  }

  lemma TailAnswers<T(!new)>(a: seq<T>, s: set<T>, rank: T -> int)
    requires a != [] && Answer(a, s, rank)
    ensures Answer(a[1..], s - {a[0]}, rank)
  {
    forall r ensures r in a[1..] <==> r in s - {a[0]} {
      if r in a[1..] {
        var i :| 0 <= i < |a[1..]| && a[1..][i] == r;
        assert a[i + 1] == r;
      }
      if r in s - {a[0]} {
        var i :| 0 <= i < |a| && a[i] == r;
        assert a[1..][i - 1] == r;
      }
    }
  }

  /** Puts a row in front of the first row that does not sort before it. */
  function Insert<T>(rows: seq<T>, r: T, rank: T -> int): seq<T> {
    if |rows| == 0 || rank(r) <= rank(rows[0]) then [r] + rows
    else [rows[0]] + Insert(rows[1..], r, rank)
  }

  lemma {:induction false} InsertAnswers<T(!new)>(rows: seq<T>, s: set<T>, r: T, rank: T -> int)
    requires Answer(rows, s, rank) && r !in s
    ensures Answer(Insert(rows, r, rank), s + {r}, rank)
  {
    if rows == [] || rank(r) <= rank(rows[0]) {
      EmptyAnswer(rows, s, rank);
      ConsAnswers(r, rows, s, rank);
      assert {r} + s == s + {r};
    } else {
      assert rows[0] in rows;
      TailAnswers(rows, s, rank);
      InsertAnswers(rows[1..], s - {rows[0]}, r, rank);
      var rest := s - {rows[0]} + {r};
      assert forall x :: x in rest ==> x == r || x in rows;
      ConsAnswers(rows[0], Insert(rows[1..], r, rank), rest, rank);
      assert {rows[0]} + rest == s + {r};
    }
  }

  lemma ConsAnswers<T(!new)>(r: T, rows: seq<T>, s: set<T>, rank: T -> int)
    requires Answer(rows, s, rank) && r !in s && forall x :: x in s ==> rank(r) <= rank(x)
    ensures Answer([r] + rows, {r} + s, rank)
  {
    assert forall x :: x in [r] + rows <==> x == r || x in rows;
  }

  /** Puts a set in order; which order among equal ranks, callers do not see. */
  method Sorted<T(==, !new)>(s: set<T>, rank: T -> int) returns (all: seq<T>)
    ensures Answer(all, s, rank)
  {
    all := [];
    var todo := s;
    while todo != {}
      invariant todo <= s
      invariant Answer(all, s - todo, rank)
      decreases todo
    {
      var x :| x in todo;
      InsertAnswers(all, s - todo, x, rank);
      all := Insert(all, x, rank);
      assert s - (todo - {x}) == s - todo + {x};
      todo := todo - {x};
    }
  }

  ghost function PickOne(s: set<Row>): Row
    requires s != {}
  {
    var r :| r in s; r
  }

  /** Some answer to "select s order by rank". */
  ghost function Arrange(s: set<Row>, rank: Row -> int): (rows: seq<Row>)
    ensures Answer(rows, s, rank)
  {
    if s == {} then []
    else
      var r := PickOne(s);
      var rest := Arrange(s - {r}, rank);
      InsertAnswers(rest, s - {r}, r, rank);
      assert s - {r} + {r} == s;
      Insert(rest, r, rank)
  }
}
