/** Batched eager loading: one query per requested edge, whose rows are stitched onto the parents
    through maps. Nodes are heap objects; a loader only writes the edge slots of the level above. */
module EagerLoad {
  import opened Options
  import opened Graph
  import opened Listing
  import opened NestedJoin

  datatype LoadError = UnexpectedNode(id: ID) | UnexpectedForeignKey(fk: ID) | NilForeignKey(id: ID)

  /** An edge field of an entity: nil, one node, or a list of nodes. */
  datatype Slot = Nil | One(node: Node) | Many(nodes: seq<Node>)

  /** An entity with its scanned columns and one slot for each declared edge. */
  class Node {
    const row: Row
    const loaded: seq<bool>
    var slots: seq<Slot>

    constructor (row: Row, loaded: seq<bool>)
      ensures this.row == row && this.loaded == loaded
      ensures |slots| == |loaded| && forall k :: 0 <= k < |slots| ==> slots[k] == Nil
    {
      this.row := row;
      this.loaded := loaded;
      this.slots := seq(|loaded|, _ => Nil);
    }
  }

  // ---- What the heap holds ----

  /** The object graph below `n`, all of it within `own`, is the tree `t`. */
  ghost predicate Represents(n: Node, t: Tree, own: set<Node>)
    reads own
    decreases t
  {
    && n in own
    && n.row == t.row
    && n.loaded == t.loaded
    && |n.slots| == |t.slots|
    && forall k :: 0 <= k < |t.slots| ==> SlotRepresents(n.slots[k], t.slots[k], own)
  }

  ghost predicate SlotRepresents(s: Slot, ts: TreeSlot, own: set<Node>)
    reads own
    decreases ts
  {
    match ts
    case NoTree => s == Nil
    case OneTree(t) => s.One? && Represents(s.node, t, own)
    case ManyTrees(trees) =>
      s.Many? && |s.nodes| == |trees| && forall j :: 0 <= j < |trees| ==> Represents(s.nodes[j], trees[j], own)
  }

  lemma {:induction false} RepresentsWider(n: Node, t: Tree, own: set<Node>, wider: set<Node>)
    requires own <= wider && Represents(n, t, own)
    ensures Represents(n, t, wider)
    decreases t
  {
    forall k | 0 <= k < |t.slots| ensures SlotRepresents(n.slots[k], t.slots[k], wider) {
      SlotRepresentsWider(n.slots[k], t.slots[k], own, wider);
    }
  }

  lemma {:induction false} SlotRepresentsWider(s: Slot, ts: TreeSlot, own: set<Node>, wider: set<Node>)
    requires own <= wider && SlotRepresents(s, ts, own)
    ensures SlotRepresents(s, ts, wider)
    decreases ts
  {
    match ts
    case NoTree =>
    case OneTree(t) => RepresentsWider(s.node, t, own, wider);
    case ManyTrees(trees) =>
      forall j | 0 <= j < |trees| ensures Represents(s.nodes[j], trees[j], wider) {
        RepresentsWider(s.nodes[j], trees[j], own, wider);
      }
  }

  ghost predicate Distinct(nodes: seq<Node>) {
    forall i, j :: 0 <= i < j < |nodes| ==> nodes[i] != nodes[j]
  }

  /** The nodes were scanned from `rows`, in order. */
  ghost predicate Scanned(q: Query, rows: seq<Row>, nodes: seq<Node>) {
    && Distinct(nodes)
    && |nodes| == |rows|
    && forall i :: 0 <= i < |nodes| ==>
         nodes[i].row == Project(rows[i], q.keyed, q.fields, q.edges) && nodes[i].loaded == Requested(q.edges)
  }

  ghost predicate AllNil(q: Query, nodes: seq<Node>)
    reads nodes
  {
    forall i :: 0 <= i < |nodes| ==>
      |nodes[i].slots| == |q.edges| && forall k :: 0 <= k < |q.edges| ==> nodes[i].slots[k] == Nil
  }

  // ---- The database engine ----

  /** Runs a query: its rows in some order allowed by ORDER BY, cut by OFFSET and LIMIT. Callers see only
      the contract, so nothing below depends on how ties are broken. */
  method QueryNodes(db: Database, q: Query) returns (rows: seq<Row>)
    ensures PageOfAnswer(rows, Matching(db, q), q.rank, q.limit, q.offset)
    ensures exists all :: Answer(all, Matching(db, q), q.rank) && rows == Page(all, SpecLimit(q), SpecOffset(q))
  {
    var all := Sorted(Matching(db, q), q.rank);
    PageExact(all, Matching(db, q), q.rank, q.limit, q.offset);
    rows := Page(all, SpecLimit(q), SpecOffset(q));
  }

  ghost predicate Joined(db: Database, q: Query, join: Table, ids: set<ID>, p: (ID, Row)) {
    p.0 in ids && p.1 in Matching(db, q) && Link(p.0, p.1.id) in Links(db, join)
  }

  function JoinRows(db: Database, q: Query, join: Table, ids: set<ID>): set<(ID, Row)> {
    set x, c | x in ids && c in Matching(db, q) && Link(x, c.id) in Links(db, join) :: (x, c)
  }

  function ByChild(rank: Row -> int): ((ID, Row)) -> int { (p: (ID, Row)) => rank(p.1) }

  /** Runs a query joined with a link table: one row for each link from `ids`, in some order allowed by
      ORDER BY. OFFSET and LIMIT count these rows. */
  method QueryJoined(db: Database, q: Query, join: Table, ids: set<ID>) returns (pairs: seq<(ID, Row)>)
    ensures PageOfAnswer(pairs, JoinRows(db, q, join, ids), ByChild(q.rank), q.limit, q.offset)
    ensures exists all :: Answer(all, JoinRows(db, q, join, ids), ByChild(q.rank)) && pairs == Page(all, SpecLimit(q), SpecOffset(q))
  {
    var all := Sorted(JoinRows(db, q, join, ids), ByChild(q.rank));
    PageExact(all, JoinRows(db, q, join, ids), ByChild(q.rank), q.limit, q.offset);
    pairs := Page(all, SpecLimit(q), SpecOffset(q));
  }

  lemma AllJoined(db: Database, q: Query, join: Table, ids: set<ID>, all: seq<(ID, Row)>)
    requires Answer(all, JoinRows(db, q, join, ids), ByChild(q.rank))
    ensures forall p :: p in all <==> Joined(db, q, join, ids, p)
    ensures forall i, j :: 0 <= i < j < |all| ==> all[i] != all[j] && q.rank(all[i].1) <= q.rank(all[j].1)
  {
    forall p ensures p in all <==> Joined(db, q, join, ids, p) {
      assert p in all <==> p in JoinRows(db, q, join, ids);
      assert p == (p.0, p.1);
    }
    forall i, j | 0 <= i < j < |all| ensures q.rank(all[i].1) <= q.rank(all[j].1) {
      assert ByChild(q.rank)(all[i]) <= ByChild(q.rank)(all[j]);
    }
  }

  method QueryAllJoined(db: Database, q: Query, join: Table, ids: set<ID>) returns (pairs: seq<(ID, Row)>)
    requires Unpaged(q)
    ensures forall p :: p in pairs <==> Joined(db, q, join, ids, p)
    ensures forall i, j :: 0 <= i < j < |pairs| ==> pairs[i] != pairs[j] && q.rank(pairs[i].1) <= q.rank(pairs[j].1)
  {
    pairs := QueryJoined(db, q, join, ids);
    ghost var all :| Answer(all, JoinRows(db, q, join, ids), ByChild(q.rank)) && pairs == Page(all, 0, 0);
    assert pairs == all;
    AllJoined(db, q, join, ids, pairs);
  }

  // ---- Scanning rows into nodes ----

  /** The Assign callback of a plain query: one new node for each row. */
  method ScanNodes(q: Query, rows: seq<Row>) returns (nodes: seq<Node>)
    ensures Scanned(q, rows, nodes) && AllNil(q, nodes)
    ensures forall m :: 0 <= m < |nodes| ==> fresh(nodes[m])
  {
    nodes := [];
    for i := 0 to |rows|
      invariant Scanned(q, rows[..i], nodes) && AllNil(q, nodes)
      invariant forall m :: 0 <= m < |nodes| ==> fresh(nodes[m])
    {
      var n := new Node(Project(rows[i], q.keyed, q.fields, q.edges), Requested(q.edges));
      nodes := nodes + [n];
    }
    assert rows[..|rows|] == rows;
  }

  /** The parents, looked up in `byID`, that are linked to a child. */
  ghost function ParentsOf(db: Database, join: Table, byID: map<ID, Node>, child: ID): set<Node> {
    set x | x in byID && Link(x, child) in Links(db, join) :: byID[x]
  }

  /** The parents named for a child by the join rows read so far. */
  ghost function SeenParents(pairs: seq<(ID, Row)>, byID: map<ID, Node>, child: ID): set<Node> {
    set p | p in pairs && p.1.id == child && p.0 in byID :: byID[p.0]
  }

  lemma SeenOneMore(pairs: seq<(ID, Row)>, p: (ID, Row), byID: map<ID, Node>, child: ID)
    requires p.0 in byID
    ensures SeenParents(pairs + [p], byID, child) ==
      SeenParents(pairs, byID, child) + if p.1.id == child then {byID[p.0]} else {}
  {
    assert forall r :: r in pairs + [p] <==> r in pairs || r == p;
  }

  lemma SeenAll(db: Database, q: Query, join: Table, byID: map<ID, Node>, pairs: seq<(ID, Row)>, c: Row)
    requires Keyed(Rows(db, q.table)) && c in Matching(db, q)
    requires forall p :: p in pairs <==> Joined(db, q, join, byID.Keys, p)
    ensures SeenParents(pairs, byID, c.id) == ParentsOf(db, join, byID, c.id)
  {
    forall x | x in byID && Link(x, c.id) in Links(db, join)
      ensures byID[x] in SeenParents(pairs, byID, c.id)
    {
      assert (x, c) in pairs;
    }
  }

  /** The rows that the join reaches from the given parents. */
  ghost function Reached(db: Database, q: Query, join: Table, ids: set<ID>): set<Row> {
    set c | c in Matching(db, q) && exists x :: x in ids && Link(x, c.id) in Links(db, join)
  }

  lemma ProjectKeepsId(r: Row, fields: seq<Col>, edges: seq<Request>)
    ensures Project(r, true, fields, edges).id == r.id
  {
    AddKeysKeeps([ID_COLUMN] + WithoutId(fields), edges);
    assert Columns(true, fields, edges)[0] == ID_COLUMN;
  }

  /** `rows` are the children of the join rows read so far, each at its first occurrence. */
  ghost predicate FirstRows(pairs: seq<(ID, Row)>, rows: seq<Row>, rank: Row -> int) {
    && (forall c :: c in rows <==> exists p :: p in pairs && p.1 == c)
    && (forall i, j :: 0 <= i < j < |rows| ==> rows[i] != rows[j])
    && Ordered(rows, rank)
  }

  lemma FirstRowsOneMore(pairs: seq<(ID, Row)>, rows: seq<Row>, rank: Row -> int, p: (ID, Row))
    requires FirstRows(pairs, rows, rank)
    requires forall r :: r in pairs ==> rank(r.1) <= rank(p.1)
    ensures FirstRows(pairs + [p], if p.1 in rows then rows else rows + [p.1], rank)
  {
    assert forall r :: r in pairs + [p] <==> r in pairs || r == p;
    var more := if p.1 in rows then rows else rows + [p.1];
    forall c ensures c in more <==> exists r :: r in pairs + [p] && r.1 == c {
      if c == p.1 { assert p in pairs + [p]; }
    }
    forall c | c in rows ensures rank(c) <= rank(p.1) {
      var r :| r in pairs && r.1 == c;
    }
  }

  ghost predicate NidsSeen(pairs: seq<(ID, Row)>, byID: map<ID, Node>, nids: map<ID, set<Node>>) {
    && (forall x :: x in nids <==> exists p :: p in pairs && p.1.id == x)
    && (forall x :: x in nids ==> nids[x] == SeenParents(pairs, byID, x))
  }

  lemma NidsSeenOneMore(pairs: seq<(ID, Row)>, byID: map<ID, Node>, nids: map<ID, set<Node>>, p: (ID, Row))
    requires NidsSeen(pairs, byID, nids) && p.0 in byID
    ensures var x := p.1.id;
      NidsSeen(pairs + [p], byID, nids[x := if x in nids then nids[x] + {byID[p.0]} else {byID[p.0]}])
  {
    var id := p.1.id;
    var more := nids[id := if id in nids then nids[id] + {byID[p.0]} else {byID[p.0]}];
    assert forall r :: r in pairs + [p] <==> r in pairs || r == p;
    forall x ensures x in more <==> exists r :: r in pairs + [p] && r.1.id == x {
      if x == id { assert p in pairs + [p]; }
    }
    forall x | x in more ensures more[x] == SeenParents(pairs + [p], byID, x) {
      SeenOneMore(pairs, p, byID, x);
    }
  }

  lemma FirstRowsAreReached(db: Database, q: Query, join: Table, ids: set<ID>, pairs: seq<(ID, Row)>, rows: seq<Row>)
    requires FirstRows(pairs, rows, q.rank)
    requires forall p :: p in pairs <==> Joined(db, q, join, ids, p)
    ensures Answer(rows, Reached(db, q, join, ids), q.rank)
  {
    forall c ensures c in rows <==> c in Reached(db, q, join, ids) {
      if c in rows {
        var p :| p in pairs && p.1 == c;
        assert Joined(db, q, join, ids, p);
      }
      if c in Reached(db, q, join, ids) {
        var x :| x in ids && Link(x, c.id) in Links(db, join);
        assert Joined(db, q, join, ids, (x, c));
      }
    }
  }

  /** The hooked Assign callback of a many-to-many load, for one (parent ID, child) row: a child becomes a
      node at its first row, and every row records its parent under the child's ID. */
  method AssignJoined(db: Database, q: Query, join: Table, byID: map<ID, Node>, ghost seen: seq<(ID, Row)>, p: (ID, Row),
                      ghost rows: seq<Row>, nodes: seq<Node>, nids: map<ID, set<Node>>)
    returns (ghost rows': seq<Row>, nodes': seq<Node>, nids': map<ID, set<Node>>)
    requires q.keyed && Keyed(Rows(db, q.table))
    requires Joined(db, q, join, byID.Keys, p) && forall r :: r in seen ==> Joined(db, q, join, byID.Keys, r)
    requires forall r :: r in seen ==> q.rank(r.1) <= q.rank(p.1)
    requires FirstRows(seen, rows, q.rank) && NidsSeen(seen, byID, nids)
    requires Scanned(q, rows, nodes) && AllNil(q, nodes)
    ensures FirstRows(seen + [p], rows', q.rank) && NidsSeen(seen + [p], byID, nids')
    ensures Scanned(q, rows', nodes') && AllNil(q, nodes')
    ensures nodes <= nodes' && forall m :: |nodes| <= m < |nodes'| ==> fresh(nodes'[m])
  {
    var scanned := Project(p.1, q.keyed, q.fields, q.edges);
    ProjectKeepsId(p.1, q.fields, q.edges);
    FirstRowsOneMore(seen, rows, q.rank, p);
    NidsSeenOneMore(seen, byID, nids, p);
    rows', nodes' := rows, nodes;
    var inValue := scanned.id;
    if inValue !in nids {
      assert p.1 !in rows;
      nids' := nids[inValue := {byID[p.0]}];
      var n := new Node(scanned, Requested(q.edges));
      nodes' := nodes + [n];
      rows' := rows + [p.1];
    } else {
      SameIdSameRow(db, q, join, byID.Keys, seen, p);
      nids' := nids[inValue := nids[inValue] + {byID[p.0]}];
    }
  }

  /** Scans all rows of a many-to-many load. */
  method ScanJoined(db: Database, q: Query, join: Table, byID: map<ID, Node>)
    returns (ghost rows: seq<Row>, nodes: seq<Node>, nids: map<ID, set<Node>>)
    requires q.keyed && Keyed(Rows(db, q.table)) && Unpaged(q)
    ensures Answer(rows, Reached(db, q, join, byID.Keys), q.rank)
    ensures Scanned(q, rows, nodes) && AllNil(q, nodes)
    ensures forall m :: 0 <= m < |nodes| ==> fresh(nodes[m])
    ensures forall j :: 0 <= j < |rows| ==> rows[j].id in nids && nids[rows[j].id] == ParentsOf(db, join, byID, rows[j].id)
  {
    var pairs := QueryAllJoined(db, q, join, byID.Keys);
    rows, nodes, nids := [], [], map[];
    for i := 0 to |pairs|
      invariant FirstRows(pairs[..i], rows, q.rank) && NidsSeen(pairs[..i], byID, nids)
      invariant Scanned(q, rows, nodes) && AllNil(q, nodes)
      invariant forall m :: 0 <= m < |nodes| ==> fresh(nodes[m])
    {
      assert pairs[..i + 1] == pairs[..i] + [pairs[i]];
      assert forall r :: r in pairs[..i] ==> r in pairs;
      rows, nodes, nids := AssignJoined(db, q, join, byID, pairs[..i], pairs[i], rows, nodes, nids);
    }
    assert pairs[..|pairs|] == pairs;
    FirstRowsAreReached(db, q, join, byID.Keys, pairs, rows);
    SeenIsComplete(db, q, join, byID, pairs, rows, nids);
  }

  lemma SeenIsComplete(db: Database, q: Query, join: Table, byID: map<ID, Node>, pairs: seq<(ID, Row)>, rows: seq<Row>,
                       nids: map<ID, set<Node>>)
    requires Keyed(Rows(db, q.table)) && NidsSeen(pairs, byID, nids) && FirstRows(pairs, rows, q.rank)
    requires forall p :: p in pairs <==> Joined(db, q, join, byID.Keys, p)
    ensures forall j :: 0 <= j < |rows| ==> rows[j].id in nids && nids[rows[j].id] == ParentsOf(db, join, byID, rows[j].id)
  {
    forall j | 0 <= j < |rows| ensures rows[j].id in nids && nids[rows[j].id] == ParentsOf(db, join, byID, rows[j].id) {
      assert rows[j] in rows;
      SeenAll(db, q, join, byID, pairs, rows[j]);
    }
  }

  lemma SameIdSameRow(db: Database, q: Query, join: Table, ids: set<ID>, seen: seq<(ID, Row)>, p: (ID, Row))
    requires Keyed(Rows(db, q.table)) && Joined(db, q, join, ids, p)
    requires forall r :: r in seen ==> Joined(db, q, join, ids, r)
    requires exists r :: r in seen && r.1.id == p.1.id
    ensures exists r :: r in seen && r.1 == p.1
  {
    var r :| r in seen && r.1.id == p.1.id;
    assert r.1 == p.1;
  }

  // ---- Stitching children onto parents ----

  /** `p` is what a map filled in list order holds for its own ID: no later node has the same ID. */
  ghost predicate LastOfId(nodes: seq<Node>, i: nat)
    requires i < |nodes|
  {
    forall j :: i < j < |nodes| ==> nodes[j].row.id != nodes[i].row.id
  }

  /** The map from IDs to nodes that a loader fills in list order; later nodes replace earlier ones. */
  ghost predicate IndexOf(nodes: seq<Node>, byID: map<ID, Node>) {
    && (forall x :: x in byID <==> exists i :: 0 <= i < |nodes| && nodes[i].row.id == x)
    && (forall i :: 0 <= i < |nodes| ==> byID[nodes[i].row.id] in nodes && byID[nodes[i].row.id].row.id == nodes[i].row.id)
    && (forall i :: 0 <= i < |nodes| ==> (byID[nodes[i].row.id] == nodes[i] <==> LastOfId(nodes, i)))
  }

  lemma IndexedNode(nodes: seq<Node>, byID: map<ID, Node>, x: ID)
    requires IndexOf(nodes, byID) && x in byID
    ensures byID[x] in nodes && byID[x].row.id == x
  {
    var i :| 0 <= i < |nodes| && nodes[i].row.id == x;
  }

  lemma IndexOneMore(nodes: seq<Node>, byID: map<ID, Node>, n: Node)
    requires Distinct(nodes + [n]) && IndexOf(nodes, byID)
    ensures IndexOf(nodes + [n], byID[n.row.id := n])
  {
    var more := nodes + [n];
    var after := byID[n.row.id := n];
    forall x ensures x in after <==> exists i :: 0 <= i < |more| && more[i].row.id == x {
      if x == n.row.id { assert more[|nodes|].row.id == x; }
      if x in byID {
        var i :| 0 <= i < |nodes| && nodes[i].row.id == x;
        assert more[i].row.id == x;
      }
    }
    forall i | 0 <= i < |more|
      ensures after[more[i].row.id] in more && after[more[i].row.id].row.id == more[i].row.id
      ensures after[more[i].row.id] == more[i] <==> LastOfId(more, i)
    {
      if more[i].row.id == n.row.id {
        assert more[|nodes|] == n;
      } else {
        assert more[i] == nodes[i];
        assert LastOfId(nodes, i) <==> LastOfId(more, i) by {
          assert forall j :: i < j < |nodes| ==> more[j] == nodes[j];
        }
      }
    }
  }

  /** One turn of the loop below. */
  method IndexNode(ghost before: seq<Node>, byID: map<ID, Node>, n: Node, k: nat) returns (after: map<ID, Node>)
    requires Distinct(before + [n]) && IndexOf(before, byID) && k < |n.slots|
    modifies n`slots
    ensures IndexOf(before + [n], after)
    ensures n.slots == old(n.slots)[k := Many([])]
  {
    IndexOneMore(before, byID, n);
    after := byID[n.row.id := n];
    n.slots := n.slots[k := Many([])];
  }

  /** The first loop of a to-many loader: index the parents by ID and empty their edge lists. */
  method IndexAndInit(nodes: seq<Node>, k: nat) returns (byID: map<ID, Node>)
    requires Distinct(nodes) && forall i :: 0 <= i < |nodes| ==> k < |nodes[i].slots|
    modifies nodes`slots
    ensures IndexOf(nodes, byID)
    ensures forall i :: 0 <= i < |nodes| ==> nodes[i].slots == old(nodes[i].slots)[k := Many([])]
  {
    byID := map[];
    for i := 0 to |nodes|
      invariant IndexOf(nodes[..i], byID)
      invariant forall j :: 0 <= j < i ==> nodes[j].slots == old(nodes[j].slots)[k := Many([])]
      invariant forall j :: i <= j < |nodes| ==> nodes[j].slots == old(nodes[j].slots)
    {
      assert nodes[..i + 1] == nodes[..i] + [nodes[i]];
      byID := IndexNode(nodes[..i], byID, nodes[i], k);
    }
    assert nodes[..|nodes|] == nodes;
  }

  /** Which of the children go to `p`, when child `j` goes to the parents `targets[j]`. */
  ghost function GoesTo(targets: seq<set<Node>>, p: Node): seq<bool> {
    seq(|targets|, j requires 0 <= j < |targets| => p in targets[j])
  }

  /** Those among the first `j` children that go to `p`, in order. */
  ghost function Share(children: seq<Node>, targets: seq<set<Node>>, j: nat, p: Node): seq<Node>
    requires j <= |children| == |targets|
  {
    Pick(children, GoesTo(targets, p), j)
  }

  /** Appends `c` to the edge list of every node of a set, visited in any order. */
  method AppendToAll(targets: set<Node>, k: nat, c: Node)
    requires forall n :: n in targets ==> k < |n.slots| && n.slots[k].Many?
    modifies targets`slots
    ensures forall n :: n in targets ==> n.slots == old(n.slots)[k := Many(old(n.slots[k].nodes) + [c])]
  {
    var todo := targets;
    while todo != {}
      invariant todo <= targets
      invariant forall n :: n in todo ==> n.slots == old(n.slots)
      invariant forall n :: n in targets - todo ==> n.slots == old(n.slots)[k := Many(old(n.slots[k].nodes) + [c])]
      decreases todo
    {
      var n :| n in todo;
      n.slots := n.slots[k := Many(n.slots[k].nodes + [c])];
      todo := todo - {n};
    }
  }

  /** The same, told for a list of nodes that contains the set. */
  method AppendAmong(nodes: seq<Node>, targets: set<Node>, k: nat, c: Node)
    requires forall i :: 0 <= i < |nodes| ==> k < |nodes[i].slots| && nodes[i].slots[k].Many?
    requires forall n :: n in targets ==> n in nodes
    modifies nodes`slots
    ensures forall i :: 0 <= i < |nodes| ==> nodes[i].slots == old(nodes[i].slots)[
      k := Many(old(nodes[i].slots[k].nodes) + if nodes[i] in targets then [c] else [])]
  {
    AppendToAll(targets, k, c);
    forall i | 0 <= i < |nodes| && nodes[i] !in targets
      ensures nodes[i].slots == old(nodes[i].slots)[k := Many(old(nodes[i].slots[k].nodes) + [])]
    {
      assert old(nodes[i].slots[k].nodes) + [] == old(nodes[i].slots[k].nodes);
      assert old(nodes[i].slots)[k := old(nodes[i].slots[k])] == old(nodes[i].slots);
    }
  }

  /** The last loop of a many-to-many loader: each child goes to the parents recorded under its ID. */
  method StitchJoined(nodes: seq<Node>, k: nat, children: seq<Node>, nids: map<ID, set<Node>>, ghost targets: seq<set<Node>>)
    returns (err: Option<LoadError>)
    requires forall i :: 0 <= i < |nodes| ==> k < |nodes[i].slots| && nodes[i].slots[k] == Many([])
    requires |targets| == |children|
    requires forall j :: 0 <= j < |children| && children[j].row.id in nids ==>
      targets[j] == nids[children[j].row.id] && forall n :: n in targets[j] ==> n in nodes
    modifies nodes`slots
    ensures err.None? <==> forall j :: 0 <= j < |children| ==> children[j].row.id in nids
    ensures err.None? ==> forall i :: 0 <= i < |nodes| ==>
      nodes[i].slots == old(nodes[i].slots)[k := Many(Share(children, targets, |children|, nodes[i]))]
  {
    for j := 0 to |children|
      invariant forall m :: 0 <= m < j ==> children[m].row.id in nids
      invariant forall i :: 0 <= i < |nodes| ==>
        nodes[i].slots == old(nodes[i].slots)[k := Many(Share(children, targets, j, nodes[i]))]
    {
      var c := children[j];
      if c.row.id !in nids {
        return Some(UnexpectedNode(c.row.id));
      }
      AppendAmong(nodes, nids[c.row.id], k, c);
    }
    err := None;
  }

  /** The child's foreign key was scanned and names an indexed parent. */
  ghost predicate HasParent(c: Node, column: Col, nullable: bool, byID: map<ID, Node>) {
    var fk := Fk(c.row, column, nullable); fk.Some? && fk.value in byID
  }

  /** The first `j` children all have one. */
  ghost predicate HaveParents(children: seq<Node>, j: nat, column: Col, nullable: bool, byID: map<ID, Node>)
    requires j <= |children|
  {
    j > 0 ==> HaveParents(children, j - 1, column, nullable, byID) && HasParent(children[j - 1], column, nullable, byID)
  }

  lemma {:induction false} HaveParentsAt(children: seq<Node>, j: nat, column: Col, nullable: bool, byID: map<ID, Node>, m: nat)
    requires m < j <= |children| && HaveParents(children, j, column, nullable, byID)
    ensures HasParent(children[m], column, nullable, byID)
  {
    if m < j - 1 {
      HaveParentsAt(children, j - 1, column, nullable, byID, m);
    }
  }

  lemma {:induction false} AllHaveParents(children: seq<Node>, j: nat, column: Col, nullable: bool, byID: map<ID, Node>)
    requires j <= |children| && forall m :: 0 <= m < j ==> HasParent(children[m], column, nullable, byID)
    ensures HaveParents(children, j, column, nullable, byID)
  {
    if j > 0 {
      AllHaveParents(children, j - 1, column, nullable, byID);
    }
  }

  /** Each child that has a parent goes to that parent alone. */
  ghost predicate OneTargetEach(nodes: seq<Node>, children: seq<Node>, column: Col, nullable: bool, byID: map<ID, Node>, targets: seq<set<Node>>) {
    && |targets| == |children|
    && forall j :: 0 <= j < |children| && HasParent(children[j], column, nullable, byID) ==>
         var n := byID[Fk(children[j].row, column, nullable).value]; targets[j] == {n} && n in nodes
  }

  /** One turn of the loop below. */
  method AssignByKey(nodes: seq<Node>, k: nat, c: Node, column: Col, nullable: bool, byID: map<ID, Node>, ghost target: set<Node>)
    returns (err: Option<LoadError>)
    requires forall i :: 0 <= i < |nodes| ==> k < |nodes[i].slots| && nodes[i].slots[k].Many?
    requires HasParent(c, column, nullable, byID) ==>
      var n := byID[Fk(c.row, column, nullable).value]; target == {n} && n in nodes
    modifies nodes`slots
    ensures err.None? <==> HasParent(c, column, nullable, byID)
    ensures err.None? ==> forall i :: 0 <= i < |nodes| ==> nodes[i].slots == old(nodes[i].slots)[
      k := Many(old(nodes[i].slots[k].nodes) + if nodes[i] in target then [c] else [])]
  {
    var fk := Fk(c.row, column, nullable);
    if fk.None? {
      return Some(NilForeignKey(c.row.id));
    }
    if fk.value !in byID {
      return Some(UnexpectedForeignKey(fk.value));
    }
    AppendAmong(nodes, {byID[fk.value]}, k, c);
    err := None;
  }

  /** The last loop of a one-to-many loader: each child goes to the parent its foreign key names. */
  method StitchByKey(nodes: seq<Node>, k: nat, children: seq<Node>, column: Col, nullable: bool, byID: map<ID, Node>,
                     ghost targets: seq<set<Node>>)
    returns (err: Option<LoadError>)
    requires forall i :: 0 <= i < |nodes| ==> k < |nodes[i].slots| && nodes[i].slots[k] == Many([])
    requires OneTargetEach(nodes, children, column, nullable, byID, targets)
    modifies nodes`slots
    ensures err.None? <==> HaveParents(children, |children|, column, nullable, byID)
    ensures err.None? ==> forall i :: 0 <= i < |nodes| ==>
      nodes[i].slots == old(nodes[i].slots)[k := Many(Share(children, targets, |children|, nodes[i]))]
  {
    for j := 0 to |children|
      invariant HaveParents(children, j, column, nullable, byID)
      invariant forall i :: 0 <= i < |nodes| ==>
        nodes[i].slots == old(nodes[i].slots)[k := Many(Share(children, targets, j, nodes[i]))]
    {
      err := AssignByKey(nodes, k, children[j], column, nullable, byID, targets[j]);
      if err.Some? {
        if HaveParents(children, |children|, column, nullable, byID) {
          HaveParentsAt(children, |children|, column, nullable, byID, j);
        }
        return;
      }
    }
    err := None;
  }

  // ---- Many-to-one: a foreign key can be shared, so it indexes a list of nodes ----

  /** `ids` are the foreign keys of the nodes, each once; `nodeids` gives the nodes that carry a key. */
  ghost predicate KeyIndex(nodes: seq<Node>, column: Col, nullable: bool, ids: seq<ID>, nodeids: map<ID, seq<Node>>) {
    && (forall a, b :: 0 <= a < b < |ids| ==> ids[a] != ids[b])
    && (forall x :: x in ids <==> x in nodeids)
    && (forall x :: x in nodeids ==> nodeids[x] != [] && forall n :: n in nodeids[x] ==> n in nodes && Fk(n.row, column, nullable) == Some(x))
    && (forall i :: 0 <= i < |nodes| ==>
         var fk := Fk(nodes[i].row, column, nullable); fk.Some? ==> fk.value in nodeids && nodes[i] in nodeids[fk.value])
  }

  /** The first loop of a many-to-one loader. */
  method IndexKeys(nodes: seq<Node>, column: Col, nullable: bool) returns (ids: seq<ID>, nodeids: map<ID, seq<Node>>)
    ensures KeyIndex(nodes, column, nullable, ids, nodeids)
  {
    ids, nodeids := [], map[];
    for i := 0 to |nodes|
      invariant KeyIndex(nodes[..i], column, nullable, ids, nodeids)
    {
      var fk := Fk(nodes[i].row, column, nullable);
      if fk.None? {
        continue;
      }
      if fk.value !in nodeids {
        ids := ids + [fk.value];
        nodeids := nodeids[fk.value := []];
      }
      nodeids := nodeids[fk.value := nodeids[fk.value] + [nodes[i]]];
    }
    assert nodes[..|nodes|] == nodes;
  }

  /** The slot of a node with foreign key `fk` after the first `j` children were assigned. */
  ghost function Target(children: seq<Node>, j: nat, fk: Option<ID>): Slot
    requires j <= |children|
  {
    if j == 0 then Nil
    else if fk == Some(children[j - 1].row.id) then One(children[j - 1])
    else Target(children, j - 1, fk)
  }

  method AssignAmong(nodes: seq<Node>, targets: seq<Node>, k: nat, c: Node)
    requires forall i :: 0 <= i < |nodes| ==> k < |nodes[i].slots|
    requires forall n :: n in targets ==> n in nodes
    modifies nodes`slots
    ensures forall i :: 0 <= i < |nodes| ==>
      nodes[i].slots == if nodes[i] in targets then old(nodes[i].slots)[k := One(c)] else old(nodes[i].slots)
  {
    for m := 0 to |targets|
      invariant forall i :: 0 <= i < |nodes| ==>
        nodes[i].slots == if nodes[i] in targets[..m] then old(nodes[i].slots)[k := One(c)] else old(nodes[i].slots)
    {
      assert targets[m] in nodes;
      targets[m].slots := targets[m].slots[k := One(c)];
    }
    assert targets[..|targets|] == targets;
  }

  lemma Carriers(nodes: seq<Node>, column: Col, nullable: bool, ids: seq<ID>, nodeids: map<ID, seq<Node>>, x: ID)
    requires KeyIndex(nodes, column, nullable, ids, nodeids) && x in nodeids
    ensures forall n :: n in nodeids[x] <==> n in nodes && Fk(n.row, column, nullable) == Some(x)
  {
    forall n | n in nodes && Fk(n.row, column, nullable) == Some(x) ensures n in nodeids[x] {
      var i :| 0 <= i < |nodes| && nodes[i] == n;
    }
  }

  /** The last loop of a many-to-one loader: each child goes to every node that carries its ID. */
  method StitchTargets(nodes: seq<Node>, k: nat, children: seq<Node>, column: Col, nullable: bool,
                       ghost ids: seq<ID>, nodeids: map<ID, seq<Node>>)
    returns (err: Option<LoadError>)
    requires KeyIndex(nodes, column, nullable, ids, nodeids)
    requires forall i :: 0 <= i < |nodes| ==> k < |nodes[i].slots| && nodes[i].slots[k] == Nil
    modifies nodes`slots
    ensures err.None? <==> forall j :: 0 <= j < |children| ==> children[j].row.id in nodeids
    ensures err.None? ==> forall i :: 0 <= i < |nodes| ==>
      nodes[i].slots == old(nodes[i].slots)[k := Target(children, |children|, Fk(nodes[i].row, column, nullable))]
  {
    for j := 0 to |children|
      invariant forall m :: 0 <= m < j ==> children[m].row.id in nodeids
      invariant forall i :: 0 <= i < |nodes| ==>
        nodes[i].slots == old(nodes[i].slots)[k := Target(children, j, Fk(nodes[i].row, column, nullable))]
    {
      var c := children[j];
      if c.row.id !in nodeids {
        return Some(UnexpectedForeignKey(c.row.id));
      }
      Carriers(nodes, column, nullable, ids, nodeids, c.row.id);
      AssignAmong(nodes, nodeids[c.row.id], k, c);
    }
    err := None;
  }

  // ---- From stitched slots to the nested join ----

  /** No later parent has the same ID as parent `i`. */
  ghost predicate LastRow(rows: seq<Row>, i: nat)
    requires i < |rows|
  {
    forall j :: i < j < |rows| ==> rows[j].id != rows[i].id
  }

  /** When batched loading gives parent `i` the right slot for a request: always, except that among parents
      that share an ID only the last gets the rows of a to-many edge. */
  ghost predicate Served(db: Database, req: Request, rows: seq<Row>, i: nat)
    requires i < |rows|
  {
    req.With? && ToMany(req.edge) ==> LastRow(rows, i) || ChildRows(db, req.edge, req.child, rows[i]) == {}
  }

  lemma PickLoaded(db: Database, e: Edge, child: Query, rows: seq<Row>, ts: seq<Tree>, sel: seq<bool>)
    requires ListLoaded(db, e, child, rows, ts) && |sel| == |rows|
    ensures ListLoaded(db, e, child, Pick(rows, sel, |rows|), Pick(ts, sel, |ts|))
  {
    PickAt(rows, sel, |rows|);
    PickAt(ts, sel, |ts|);
  }

  lemma ManySlotLoaded(db: Database, e: Edge, child: Query, s: set<Row>, rows: seq<Row>, ts: seq<Tree>,
                       r: Row, sel: seq<bool>, mine: bool)
    requires ToMany(e) && Answer(rows, s, child.rank) && ListLoaded(db, e, child, rows, ts)
    requires |sel| == |rows|
    requires mine ==> ChildRows(db, e, child, r) <= s
    requires forall j :: 0 <= j < |rows| ==> (sel[j] <==> mine && rows[j] in ChildRows(db, e, child, r))
    ensures SlotLoaded(db, With(e, child), r, ManyTrees(Pick(ts, sel, |ts|))) <==> mine || ChildRows(db, e, child, r) == {}
  {
    if mine {
      PickAnswers(rows, s, child.rank, sel, ChildRows(db, e, child, r));
      PickLoaded(db, e, child, rows, ts, sel);
      ManyTreesLoaded(db, e, child, r, Pick(rows, sel, |rows|), Pick(ts, sel, |ts|));
    } else {
      NothingPicked(ts, sel, |ts|);
      EmptySlotLoaded(db, e, child, r);
    }
  }

  lemma {:induction false} NothingPicked<T>(xs: seq<T>, sel: seq<bool>, j: nat)
    requires j <= |xs| == |sel| && forall m :: 0 <= m < |sel| ==> !sel[m]
    ensures Pick(xs, sel, j) == []
  {
    if j > 0 {
      NothingPicked(xs, sel, j - 1);
    }
  }

  lemma ManyTreesLoaded(db: Database, e: Edge, child: Query, r: Row, rows: seq<Row>, ts: seq<Tree>)
    requires ToMany(e) && Answer(rows, ChildRows(db, e, child, r), child.rank) && ListLoaded(db, e, child, rows, ts)
    ensures SlotLoaded(db, With(e, child), r, ManyTrees(ts))
  {
  }

  lemma EmptySlotLoaded(db: Database, e: Edge, child: Query, r: Row)
    requires ToMany(e)
    ensures SlotLoaded(db, With(e, child), r, ManyTrees([])) <==> ChildRows(db, e, child, r) == {}
  {
    var s := ChildRows(db, e, child, r);
    if s == {} {
      assert Answer([], s, child.rank) && ListLoaded(db, e, child, [], []);
    }
    if SlotLoaded(db, With(e, child), r, ManyTrees([])) {
      var rows :| Answer(rows, s, child.rank) && ListLoaded(db, e, child, rows, []);
      EmptyAnswer(rows, s, child.rank);
    }
  }

  lemma ManySlotRepresents(children: seq<Node>, ts: seq<Tree>, sel: seq<bool>, own: set<Node>)
    requires |children| == |ts| == |sel|
    requires forall j :: 0 <= j < |children| ==> Represents(children[j], ts[j], own)
    ensures SlotRepresents(Many(Pick(children, sel, |children|)), ManyTrees(Pick(ts, sel, |ts|)), own)
  {
    PickAt(children, sel, |children|);
    PickAt(ts, sel, |ts|);
  }

  lemma JoinedSelection(db: Database, join: Table, child: Query, rows: seq<Row>, nodes: seq<Node>, byID: map<ID, Node>, i: nat, c: Row)
    requires |rows| == |nodes| && i < |nodes| && IndexOf(nodes, byID)
    requires forall j :: 0 <= j < |nodes| ==> nodes[j].row.id == rows[j].id
    requires c in Matching(db, child)
    ensures nodes[i] in ParentsOf(db, join, byID, c.id) <==> LastRow(rows, i) && c in ChildRows(db, M2M(join), child, rows[i])
  {
    assert LastRow(rows, i) <==> LastOfId(nodes, i);
    if nodes[i] in ParentsOf(db, join, byID, c.id) {
      var x :| x in byID && Link(x, c.id) in Links(db, join) && byID[x] == nodes[i];
      IndexedNode(nodes, byID, x);
    }
  }

  // ---- The loaders ----

  /** What a loader of edge `k` starts from. */
  ghost predicate ReadyFor(db: Database, q: Query, k: nat, rows: seq<Row>, nodes: seq<Node>)
    reads nodes
  {
    && WellFormed(db, q) && k < |q.edges| && q.edges[k].With?
    && Scanned(q, rows, nodes)
    && (forall i :: 0 <= i < |rows| ==> rows[i] in Rows(db, q.table))
    && (forall i :: 0 <= i < |nodes| ==> |nodes[i].slots| == |q.edges| && nodes[i].slots[k] == Nil)
  }

  /** What a loader of edge `k` leaves: slot `k` of every parent holds the graph of a tree, and that tree is
      the parent's own answer exactly for the parents that are served. */
  ghost predicate EdgeLoaded(db: Database, q: Query, k: nat, rows: seq<Row>, nodes: seq<Node>, trees: seq<TreeSlot>, own: set<Node>)
    requires |rows| == |nodes| && k < |q.edges|
    reads nodes, own
  {
    && |trees| == |nodes|
    && forall i :: 0 <= i < |nodes| ==>
         && k < |nodes[i].slots|
         && SlotRepresents(nodes[i].slots[k], trees[i], own)
         && (SlotLoaded(db, q.edges[k], rows[i], trees[i]) <==> Served(db, q.edges[k], rows, i))
  }

  lemma DistinctRowsServed(db: Database, q: Query, rows: seq<Row>, i: nat)
    requires WellFormed(db, q) && i < |rows|
    requires forall a, b :: 0 <= a < b < |rows| ==> rows[a] != rows[b]
    requires forall a :: 0 <= a < |rows| ==> rows[a] in Rows(db, q.table)
    ensures forall k :: 0 <= k < |q.edges| ==> Served(db, q.edges[k], rows, i)
  {
    if q.keyed {
      assert LastRow(rows, i);
    }
  }

  lemma HeightOfChild(q: Query, k: nat)
    requires k < |q.edges| && q.edges[k].With?
    ensures Height(q.edges[k].child) < Height(q)
  {
    HeightOfRequest(q.edges, k);
  }

  /** The loaded nodes of a child query: which rows they stand for, their trees, and the heap below them. */
  ghost predicate AllLoaded(db: Database, q: Query, rows: seq<Row>, nodes: seq<Node>, ts: seq<Tree>, own: set<Node>)
    reads own
  {
    && Scanned(q, rows, nodes)
    && |ts| == |nodes|
    && (forall i :: 0 <= i < |nodes| ==> Represents(nodes[i], ts[i], own))
    && (forall i :: 0 <= i < |nodes| ==> Loaded(db, q, q.fields, rows[i], ts[i]))
  }

  /** Runs the joined query of a many-to-many edge and everything below it. */
  method SqlAllJoined(db: Database, q: Query, join: Table, byID: map<ID, Node>)
    returns (err: Option<LoadError>, ghost rows: seq<Row>, nodes: seq<Node>, nids: map<ID, set<Node>>,
             ghost ts: seq<Tree>, ghost own: set<Node>)
    requires WellFormed(db, q) && q.keyed && Unpaged(q)
    ensures err.None? && fresh(own)
    ensures Answer(rows, Reached(db, q, join, byID.Keys), q.rank)
    ensures AllLoaded(db, q, rows, nodes, ts, own)
    ensures forall j :: 0 <= j < |rows| ==> rows[j].id in nids && nids[rows[j].id] == ParentsOf(db, join, byID, rows[j].id)
    decreases Height(q), 8
  {
    rows, nodes, nids := ScanJoined(db, q, join, byID);
    assert forall i :: 0 <= i < |rows| ==> rows[i] in rows;
    err, ts, own := LoadEdges(db, q, rows, nodes);
    forall i | 0 <= i < |nodes| ensures Loaded(db, q, q.fields, rows[i], ts[i]) {
      DistinctRowsServed(db, q, rows, i);
    }
  }

  /** Runs a query and everything below it. */
  method SqlAll(db: Database, q: Query)
    returns (err: Option<LoadError>, ghost rows: seq<Row>, nodes: seq<Node>, ghost ts: seq<Tree>, ghost own: set<Node>)
    requires WellFormed(db, q)
    ensures err.None? && fresh(own)
    ensures PageOfAnswer(rows, Matching(db, q), q.rank, q.limit, q.offset)
    ensures exists all :: Answer(all, Matching(db, q), q.rank) && rows == Page(all, SpecLimit(q), SpecOffset(q))
    ensures AllLoaded(db, q, rows, nodes, ts, own)
    decreases Height(q), 8
  {
    var fetched := QueryNodes(db, q);
    rows := fetched;
    ghost var all :| Answer(all, Matching(db, q), q.rank) && rows == Page(all, SpecLimit(q), SpecOffset(q));
    PageOf(all, SpecLimit(q), SpecOffset(q));
    assert forall i :: 0 <= i < |rows| ==> rows[i] in all;
    nodes := ScanNodes(q, fetched);
    err, ts, own := LoadEdges(db, q, rows, nodes);
    forall i | 0 <= i < |nodes| ensures Loaded(db, q, q.fields, rows[i], ts[i]) {
      DistinctRowsServed(db, q, rows, i);
    }
  }

  lemma PageOf(all: seq<Row>, limit: nat, offset: nat)
    ensures var rows := Page(all, limit, offset);
      |rows| <= |all| && forall i :: 0 <= i < |rows| ==> offset + i < |all| && rows[i] == all[offset + i]
  {
  }

  /** What is left of a loader once the parents are indexed and slot `k` is empty. */
  ghost predicate Indexed(db: Database, q: Query, k: nat, rows: seq<Row>, nodes: seq<Node>, byID: map<ID, Node>)
    reads nodes
  {
    && WellFormed(db, q) && k < |q.edges| && q.edges[k].With?
    && Scanned(q, rows, nodes) && IndexOf(nodes, byID)
    && (forall i :: 0 <= i < |nodes| ==> |nodes[i].slots| == |q.edges| && nodes[i].slots[k] == Many([]))
  }

  method LoadM2M(db: Database, q: Query, k: nat, ghost rows: seq<Row>, nodes: seq<Node>)
    returns (err: Option<LoadError>, ghost trees: seq<TreeSlot>, ghost own: set<Node>)
    requires ReadyFor(db, q, k, rows, nodes) && q.edges[k].edge.M2M?
    modifies nodes`slots
    ensures err.None? && fresh(own)
    ensures forall i :: 0 <= i < |nodes| ==> |nodes[i].slots| == |q.edges|
    ensures forall i, e :: 0 <= i < |nodes| && 0 <= e < |q.edges| && e != k ==> nodes[i].slots[e] == old(nodes[i].slots[e])
    ensures EdgeLoaded(db, q, k, rows, nodes, trees, own)
    decreases Height(q), 4
  {
    var byID := IndexAndInit(nodes, k);
    err, trees, own := FillJoined(db, q, k, rows, nodes, byID);
  }

  method FillJoined(db: Database, q: Query, k: nat, ghost rows: seq<Row>, nodes: seq<Node>, byID: map<ID, Node>)
    returns (err: Option<LoadError>, ghost trees: seq<TreeSlot>, ghost own: set<Node>)
    requires Indexed(db, q, k, rows, nodes, byID) && q.edges[k].edge.M2M?
    modifies nodes`slots
    ensures err.None? && fresh(own)
    ensures forall i :: 0 <= i < |nodes| ==> |nodes[i].slots| == |q.edges|
    ensures forall i, e :: 0 <= i < |nodes| && 0 <= e < |q.edges| && e != k ==> nodes[i].slots[e] == old(nodes[i].slots[e])
    ensures EdgeLoaded(db, q, k, rows, nodes, trees, own)
    decreases Height(q), 3
  {
    var child, join := q.edges[k].child, q.edges[k].edge.join;
    assert EdgeOk(db, q, q.edges[k].edge, child) && WellFormed(db, child);
    HeightOfChild(q, k);
    ghost var crows: seq<Row>;
    ghost var cts: seq<Tree>;
    var children, nids;
    err, crows, children, nids, cts, own := SqlAllJoined(db, child, join, byID);
    ghost var targets := JoinTargets(db, join, byID, crows);
    JoinedTargets(db, join, child, crows, children, nodes, byID, nids, targets);
    err := StitchJoined(nodes, k, children, nids, targets);
    trees := SharedTrees(cts, targets, nodes);
    JoinedSlots(db, q, k, rows, nodes, byID, crows, cts, targets);
    SharesLoaded(db, q, k, rows, nodes, children, targets, cts, own);
  }

  /** For each child row, the parents it is linked to. */
  ghost function JoinTargets(db: Database, join: Table, byID: map<ID, Node>, crows: seq<Row>): (targets: seq<set<Node>>)
    ensures |targets| == |crows| && forall j :: 0 <= j < |crows| ==> targets[j] == ParentsOf(db, join, byID, crows[j].id)
  {
    seq(|crows|, j requires 0 <= j < |crows| => ParentsOf(db, join, byID, crows[j].id))
  }

  /** The trees of the edge lists that stitching builds. */
  ghost function SharedTrees(cts: seq<Tree>, targets: seq<set<Node>>, nodes: seq<Node>): seq<TreeSlot>
    requires |cts| == |targets|
  {
    seq(|nodes|, i requires 0 <= i < |nodes| => ManyTrees(Pick(cts, GoesTo(targets, nodes[i]), |cts|)))
  }

  lemma SharesLoaded(db: Database, q: Query, k: nat, rows: seq<Row>, nodes: seq<Node>,
                     children: seq<Node>, targets: seq<set<Node>>, cts: seq<Tree>, own: set<Node>)
    requires |children| == |cts| == |targets| && |rows| == |nodes| && k < |q.edges|
    requires forall j :: 0 <= j < |children| ==> Represents(children[j], cts[j], own)
    requires forall i :: 0 <= i < |nodes| ==>
      k < |nodes[i].slots| && nodes[i].slots[k] == Many(Share(children, targets, |children|, nodes[i]))
    requires var trees := SharedTrees(cts, targets, nodes);
      forall i :: 0 <= i < |nodes| ==> (SlotLoaded(db, q.edges[k], rows[i], trees[i]) <==> Served(db, q.edges[k], rows, i))
    ensures EdgeLoaded(db, q, k, rows, nodes, SharedTrees(cts, targets, nodes), own)
  {
    forall i | 0 <= i < |nodes| ensures SlotRepresents(nodes[i].slots[k], SharedTrees(cts, targets, nodes)[i], own) {
      ManySlotRepresents(children, cts, GoesTo(targets, nodes[i]), own);
    }
  }

  lemma JoinedTargets(db: Database, join: Table, child: Query, crows: seq<Row>, children: seq<Node>, nodes: seq<Node>,
                      byID: map<ID, Node>, nids: map<ID, set<Node>>, targets: seq<set<Node>>)
    requires child.keyed && Scanned(child, crows, children) && IndexOf(nodes, byID)
    requires forall j :: 0 <= j < |crows| ==> crows[j].id in nids && nids[crows[j].id] == ParentsOf(db, join, byID, crows[j].id)
    requires |targets| == |children| && forall j :: 0 <= j < |children| ==> targets[j] == ParentsOf(db, join, byID, crows[j].id)
    ensures forall j :: 0 <= j < |children| ==> children[j].row.id in nids
    ensures forall j :: 0 <= j < |children| ==>
      targets[j] == nids[children[j].row.id] && forall n :: n in targets[j] ==> n in nodes
  {
    forall j | 0 <= j < |children| ensures children[j].row.id == crows[j].id {
      ProjectKeepsId(crows[j], child.fields, child.edges);
    }
  }

  lemma JoinedSlots(db: Database, q: Query, k: nat, rows: seq<Row>, nodes: seq<Node>, byID: map<ID, Node>,
                    crows: seq<Row>, cts: seq<Tree>, targets: seq<set<Node>>)
    requires WellFormed(db, q) && k < |q.edges| && q.edges[k].With? && q.edges[k].edge.M2M?
    requires Scanned(q, rows, nodes) && IndexOf(nodes, byID)
    requires var child, join := q.edges[k].child, q.edges[k].edge.join;
      && Answer(crows, Reached(db, child, join, byID.Keys), child.rank)
      && |cts| == |crows| == |targets|
      && (forall j :: 0 <= j < |crows| ==> Loaded(db, child, child.fields, crows[j], cts[j]))
      && (forall j :: 0 <= j < |crows| ==> targets[j] == ParentsOf(db, join, byID, crows[j].id))
    ensures forall i :: 0 <= i < |nodes| ==>
      (SlotLoaded(db, q.edges[k], rows[i], SharedTrees(cts, targets, nodes)[i]) <==> Served(db, q.edges[k], rows, i))
  {
    forall i | 0 <= i < |nodes| {
      JoinedSlot(db, q, k, rows, nodes, byID, crows, cts, targets, i);
    }
  }

  lemma JoinedSlot(db: Database, q: Query, k: nat, rows: seq<Row>, nodes: seq<Node>, byID: map<ID, Node>,
                   crows: seq<Row>, cts: seq<Tree>, targets: seq<set<Node>>, i: nat)
    requires WellFormed(db, q) && k < |q.edges| && q.edges[k].With? && q.edges[k].edge.M2M?
    requires Scanned(q, rows, nodes) && i < |nodes| && IndexOf(nodes, byID)
    requires var child, join := q.edges[k].child, q.edges[k].edge.join;
      && Answer(crows, Reached(db, child, join, byID.Keys), child.rank)
      && |cts| == |crows| == |targets|
      && (forall j :: 0 <= j < |crows| ==> Loaded(db, child, child.fields, crows[j], cts[j]))
      && (forall j :: 0 <= j < |crows| ==> targets[j] == ParentsOf(db, join, byID, crows[j].id))
    ensures SlotLoaded(db, q.edges[k], rows[i], ManyTrees(Pick(cts, GoesTo(targets, nodes[i]), |cts|)))
      <==> Served(db, q.edges[k], rows, i)
  {
    var child, join := q.edges[k].child, q.edges[k].edge.join;
    assert EdgeOk(db, q, q.edges[k].edge, child);
    forall j | 0 <= j < |nodes| ensures nodes[j].row.id == rows[j].id {
      ProjectKeepsId(rows[j], q.fields, q.edges);
    }
    forall j | 0 <= j < |crows|
      ensures nodes[i] in targets[j] <==> LastRow(rows, i) && crows[j] in ChildRows(db, M2M(join), child, rows[i])
    {
      assert crows[j] in crows;
      JoinedSelection(db, join, child, rows, nodes, byID, i, crows[j]);
    }
    assert nodes[i].row.id in byID;
    ManySlotLoaded(db, M2M(join), child, Reached(db, child, join, byID.Keys), crows, cts, rows[i],
                   GoesTo(targets, nodes[i]), LastRow(rows, i));
  }

  // ---- One-to-many ----

  lemma ProjectKeepsColumn(r: Row, keyed: bool, fields: seq<Col>, edges: seq<Request>, c: Col, nullable: bool)
    requires fields == [] || c in Columns(keyed, fields, edges)
    ensures Fk(Project(r, keyed, fields, edges), c, nullable) == Fk(r, c, nullable)
  {
  }

  lemma ChildKeyIsSelected(e: Edge, child: Query)
    requires e.O2M? && e.column != ID_COLUMN
    ensures var fields := ChildFields(e, child); fields == [] || e.column in Columns(child.keyed, fields, child.edges)
  {
    var fields := ChildFields(e, child);
    WithoutIdKeeps(fields);
    var base := if child.keyed then [ID_COLUMN] + WithoutId(fields) else fields;
    AddKeysKeeps(base, child.edges);
    if fields != [] {
      assert e.column in fields;
      assert e.column in base;
    }
  }

  /** The child query as a loader runs it: narrowed by one more predicate. */
  function Narrowed(e: Edge, child: Query, p: Pred): Query {
    child.(fields := ChildFields(e, child), preds := child.preds + [p])
  }

  lemma NarrowedKeeps(db: Database, e: Edge, child: Query, p: Pred)
    ensures Height(Narrowed(e, child, p)) == Height(child)
    ensures WellFormed(db, child) ==> WellFormed(db, Narrowed(e, child, p))
    ensures Matching(db, Narrowed(e, child, p)) == set c | c in Matching(db, child) && Satisfies(p, c)
  {
    forall r {
      SatisfiesOneMore(child.preds, p, r);
    }
  }

  lemma NarrowedLoads(db: Database, e: Edge, child: Query, p: Pred, r: Row, t: Tree)
    requires Loaded(db, Narrowed(e, child, p), ChildFields(e, child), r, t)
    ensures Loaded(db, child, ChildFields(e, child), r, t)
  {
  }

  /** Runs a child query that a loader has narrowed. */
  method SqlAllNarrowed(db: Database, e: Edge, child: Query, p: Pred)
    returns (err: Option<LoadError>, ghost rows: seq<Row>, nodes: seq<Node>, ghost ts: seq<Tree>, ghost own: set<Node>)
    requires WellFormed(db, child) && Unpaged(child)
    ensures err.None? && fresh(own)
    ensures Answer(rows, Matching(db, Narrowed(e, child, p)), child.rank)
    ensures AllLoaded(db, Narrowed(e, child, p), rows, nodes, ts, own)
    decreases Height(child), 9
  {
    NarrowedKeeps(db, e, child, p);
    err, rows, nodes, ts, own := SqlAll(db, Narrowed(e, child, p));
  }

  method LoadO2M(db: Database, q: Query, k: nat, ghost rows: seq<Row>, nodes: seq<Node>)
    returns (err: Option<LoadError>, ghost trees: seq<TreeSlot>, ghost own: set<Node>)
    requires ReadyFor(db, q, k, rows, nodes) && q.edges[k].edge.O2M?
    modifies nodes`slots
    ensures err.None? && fresh(own)
    ensures forall i :: 0 <= i < |nodes| ==> |nodes[i].slots| == |q.edges|
    ensures forall i, e :: 0 <= i < |nodes| && 0 <= e < |q.edges| && e != k ==> nodes[i].slots[e] == old(nodes[i].slots[e])
    ensures EdgeLoaded(db, q, k, rows, nodes, trees, own)
    decreases Height(q), 4
  {
    var byID := IndexAndInit(nodes, k);
    err, trees, own := FillByKey(db, q, k, rows, nodes, byID);
  }

  method FillByKey(db: Database, q: Query, k: nat, ghost rows: seq<Row>, nodes: seq<Node>, byID: map<ID, Node>)
    returns (err: Option<LoadError>, ghost trees: seq<TreeSlot>, ghost own: set<Node>)
    requires Indexed(db, q, k, rows, nodes, byID) && q.edges[k].edge.O2M?
    modifies nodes`slots
    ensures err.None? && fresh(own)
    ensures forall i :: 0 <= i < |nodes| ==> |nodes[i].slots| == |q.edges|
    ensures forall i, e :: 0 <= i < |nodes| && 0 <= e < |q.edges| && e != k ==> nodes[i].slots[e] == old(nodes[i].slots[e])
    ensures EdgeLoaded(db, q, k, rows, nodes, trees, own)
    decreases Height(q), 3
  {
    var child, e := q.edges[k].child, q.edges[k].edge;
    assert EdgeOk(db, q, e, child) && WellFormed(db, child);
    HeightOfChild(q, k);
    ghost var crows: seq<Row>;
    ghost var cts: seq<Tree>;
    var children;
    err, crows, children, cts, own := SqlAllKeyed(db, e, child, nodes, byID);
    ghost var targets := KeyTargets(e, byID, crows);
    err := StitchByKey(nodes, k, children, e.column, e.nullable, byID, targets);
    trees := SharedTrees(cts, targets, nodes);
    KeyedLoaded(db, q, k, rows, nodes, byID, children, crows, cts, own);
  }

  lemma KeyedLoaded(db: Database, q: Query, k: nat, rows: seq<Row>, nodes: seq<Node>, byID: map<ID, Node>,
                    children: seq<Node>, crows: seq<Row>, cts: seq<Tree>, own: set<Node>)
    requires WellFormed(db, q) && k < |q.edges| && q.edges[k].With? && q.edges[k].edge.O2M?
    requires Scanned(q, rows, nodes) && IndexOf(nodes, byID) && |children| == |crows| == |cts|
    requires var child, e := q.edges[k].child, q.edges[k].edge;
      var narrowed := Narrowed(e, child, ColIn(e.column, byID.Keys));
      && Answer(crows, Matching(db, narrowed), child.rank)
      && (forall j :: 0 <= j < |crows| ==> Loaded(db, narrowed, narrowed.fields, crows[j], cts[j]))
    requires forall j :: 0 <= j < |children| ==> Represents(children[j], cts[j], own)
    requires var targets := KeyTargets(q.edges[k].edge, byID, crows);
      forall i :: 0 <= i < |nodes| ==>
        k < |nodes[i].slots| && nodes[i].slots[k] == Many(Share(children, targets, |children|, nodes[i]))
    ensures EdgeLoaded(db, q, k, rows, nodes, SharedTrees(cts, KeyTargets(q.edges[k].edge, byID, crows), nodes), own)
  {
    KeyedSlots(db, q, k, rows, nodes, byID, crows, cts);
    SharesLoaded(db, q, k, rows, nodes, children, KeyTargets(q.edges[k].edge, byID, crows), cts, own);
  }

  /** Runs the child query of a one-to-many edge for the indexed parents. */
  method SqlAllKeyed(db: Database, e: Edge, child: Query, ghost parents: seq<Node>, byID: map<ID, Node>)
    returns (err: Option<LoadError>, ghost rows: seq<Row>, nodes: seq<Node>, ghost ts: seq<Tree>, ghost own: set<Node>)
    requires WellFormed(db, child) && Unpaged(child) && e.O2M? && e.column != ID_COLUMN && IndexOf(parents, byID)
    ensures err.None? && fresh(own) && |nodes| == |rows| == |ts|
    ensures var narrowed := Narrowed(e, child, ColIn(e.column, byID.Keys));
      && Answer(rows, Matching(db, narrowed), child.rank)
      && forall j :: 0 <= j < |rows| ==> Loaded(db, narrowed, narrowed.fields, rows[j], ts[j])
    ensures forall j :: 0 <= j < |nodes| ==> Represents(nodes[j], ts[j], own)
    ensures HaveParents(nodes, |nodes|, e.column, e.nullable, byID)
    ensures OneTargetEach(parents, nodes, e.column, e.nullable, byID, KeyTargets(e, byID, rows))
    decreases Height(child), 10
  {
    err, rows, nodes, ts, own := SqlAllNarrowed(db, e, child, ColIn(e.column, byID.Keys));
    assert forall j :: 0 <= j < |rows| ==> rows[j] in rows;
    KeyedTargets(db, e, child, parents, byID, rows, nodes);
  }

  /** For each child row, the parent its foreign key names. */
  ghost function KeyTargets(e: Edge, byID: map<ID, Node>, crows: seq<Row>): seq<set<Node>>
    requires e.O2M?
  {
    seq(|crows|, j requires 0 <= j < |crows| =>
      if e.column in crows[j].cols && crows[j].cols[e.column] in byID then {byID[crows[j].cols[e.column]]} else {})
  }

  lemma KeyedTargets(db: Database, e: Edge, child: Query, nodes: seq<Node>, byID: map<ID, Node>, crows: seq<Row>, children: seq<Node>)
    requires e.O2M? && e.column != ID_COLUMN && IndexOf(nodes, byID)
    requires var narrowed := Narrowed(e, child, ColIn(e.column, byID.Keys));
      Scanned(narrowed, crows, children) && forall j :: 0 <= j < |crows| ==> crows[j] in Matching(db, narrowed)
    ensures HaveParents(children, |children|, e.column, e.nullable, byID)
    ensures OneTargetEach(nodes, children, e.column, e.nullable, byID, KeyTargets(e, byID, crows))
  {
    NarrowedKeeps(db, e, child, ColIn(e.column, byID.Keys));
    ChildKeyIsSelected(e, child);
    forall j | 0 <= j < |children|
      ensures Fk(children[j].row, e.column, e.nullable) == Some(crows[j].cols[e.column])
      ensures e.column in crows[j].cols && crows[j].cols[e.column] in byID && byID[crows[j].cols[e.column]] in nodes
    {
      ProjectKeepsColumn(crows[j], child.keyed, ChildFields(e, child), child.edges, e.column, e.nullable);
      assert Satisfies(ColIn(e.column, byID.Keys), crows[j]);
      IndexedNode(nodes, byID, crows[j].cols[e.column]);
    }
    AllHaveParents(children, |children|, e.column, e.nullable, byID);
  }

  lemma KeyedSlots(db: Database, q: Query, k: nat, rows: seq<Row>, nodes: seq<Node>, byID: map<ID, Node>,
                   crows: seq<Row>, cts: seq<Tree>)
    requires WellFormed(db, q) && k < |q.edges| && q.edges[k].With? && q.edges[k].edge.O2M?
    requires Scanned(q, rows, nodes) && IndexOf(nodes, byID)
    requires var child, e := q.edges[k].child, q.edges[k].edge;
      var narrowed := Narrowed(e, child, ColIn(e.column, byID.Keys));
      && Answer(crows, Matching(db, narrowed), child.rank)
      && |cts| == |crows|
      && (forall j :: 0 <= j < |crows| ==> Loaded(db, narrowed, narrowed.fields, crows[j], cts[j]))
    ensures forall i :: 0 <= i < |nodes| ==>
      var trees := SharedTrees(cts, KeyTargets(q.edges[k].edge, byID, crows), nodes);
      (SlotLoaded(db, q.edges[k], rows[i], trees[i]) <==> Served(db, q.edges[k], rows, i))
  {
    forall i | 0 <= i < |nodes| {
      KeyedSlot(db, q, k, rows, nodes, byID, crows, cts, i);
    }
  }

  lemma KeyedSelection(db: Database, e: Edge, child: Query, rows: seq<Row>, nodes: seq<Node>, byID: map<ID, Node>, i: nat, c: Row)
    requires e.O2M? && |rows| == |nodes| && i < |nodes| && IndexOf(nodes, byID)
    requires forall j :: 0 <= j < |nodes| ==> nodes[j].row.id == rows[j].id
    requires c in Matching(db, child) && e.column in c.cols && c.cols[e.column] in byID
    ensures nodes[i] == byID[c.cols[e.column]] <==> LastRow(rows, i) && c in ChildRows(db, e, child, rows[i])
  {
    assert LastRow(rows, i) <==> LastOfId(nodes, i);
    IndexedNode(nodes, byID, c.cols[e.column]);
  }

  lemma KeyedChildren(db: Database, e: Edge, child: Query, rows: seq<Row>, nodes: seq<Node>, byID: map<ID, Node>, i: nat,
                      crows: seq<Row>, cts: seq<Tree>)
    requires e.O2M? && |rows| == |nodes| && i < |nodes| && IndexOf(nodes, byID)
    requires forall j :: 0 <= j < |nodes| ==> nodes[j].row.id == rows[j].id
    requires var narrowed := Narrowed(e, child, ColIn(e.column, byID.Keys));
      && Answer(crows, Matching(db, narrowed), child.rank) && |cts| == |crows|
      && (forall j :: 0 <= j < |crows| ==> Loaded(db, narrowed, narrowed.fields, crows[j], cts[j]))
    ensures ListLoaded(db, e, child, crows, cts)
    ensures forall j :: 0 <= j < |crows| ==>
      (nodes[i] in KeyTargets(e, byID, crows)[j] <==> LastRow(rows, i) && crows[j] in ChildRows(db, e, child, rows[i]))
  {
    var p := ColIn(e.column, byID.Keys);
    NarrowedKeeps(db, e, child, p);
    forall j | 0 <= j < |crows|
      ensures nodes[i] in KeyTargets(e, byID, crows)[j] <==> LastRow(rows, i) && crows[j] in ChildRows(db, e, child, rows[i])
      ensures Loaded(db, child, ChildFields(e, child), crows[j], cts[j])
    {
      assert crows[j] in crows && Satisfies(p, crows[j]);
      KeyedSelection(db, e, child, rows, nodes, byID, i, crows[j]);
      NarrowedLoads(db, e, child, p, crows[j], cts[j]);
    }
  }

  lemma KeyedSlot(db: Database, q: Query, k: nat, rows: seq<Row>, nodes: seq<Node>, byID: map<ID, Node>,
                  crows: seq<Row>, cts: seq<Tree>, i: nat)
    requires WellFormed(db, q) && k < |q.edges| && q.edges[k].With? && q.edges[k].edge.O2M?
    requires Scanned(q, rows, nodes) && i < |nodes| && IndexOf(nodes, byID)
    requires var child, e := q.edges[k].child, q.edges[k].edge;
      var narrowed := Narrowed(e, child, ColIn(e.column, byID.Keys));
      && Answer(crows, Matching(db, narrowed), child.rank)
      && |cts| == |crows|
      && (forall j :: 0 <= j < |crows| ==> Loaded(db, narrowed, narrowed.fields, crows[j], cts[j]))
    ensures SlotLoaded(db, q.edges[k], rows[i], ManyTrees(Pick(cts, GoesTo(KeyTargets(q.edges[k].edge, byID, crows), nodes[i]), |cts|)))
      <==> Served(db, q.edges[k], rows, i)
  {
    var child, e := q.edges[k].child, q.edges[k].edge;
    var p := ColIn(e.column, byID.Keys);
    assert EdgeOk(db, q, e, child);
    NarrowedKeeps(db, e, child, p);
    forall j | 0 <= j < |nodes| ensures nodes[j].row.id == rows[j].id {
      ProjectKeepsId(rows[j], q.fields, q.edges);
    }
    KeyedChildren(db, e, child, rows, nodes, byID, i, crows, cts);
    ManySlotLoaded(db, e, child, Matching(db, Narrowed(e, child, p)), crows, cts, rows[i],
                   GoesTo(KeyTargets(e, byID, crows), nodes[i]), LastRow(rows, i));
  }

  // ---- Many-to-one ----

  lemma ParentKeyIsSelected(q: Query, k: nat)
    requires k < |q.edges| && q.edges[k].With? && q.edges[k].edge.M2O?
    ensures q.fields == [] || q.edges[k].edge.column in Columns(q.keyed, q.fields, q.edges)
  {
    AddKeysKeeps(if q.keyed then [ID_COLUMN] + WithoutId(q.fields) else q.fields, q.edges);
  }

  /** The tree of the slot that `Target` computes. */
  ghost function TargetTree(crows: seq<Row>, cts: seq<Tree>, j: nat, fk: Option<ID>): TreeSlot
    requires j <= |crows| == |cts|
  {
    if j == 0 then NoTree
    else if fk == Some(crows[j - 1].id) then OneTree(cts[j - 1])
    else TargetTree(crows, cts, j - 1, fk)
  }

  lemma {:induction false} TargetRepresents(children: seq<Node>, crows: seq<Row>, cts: seq<Tree>, j: nat, fk: Option<ID>, own: set<Node>)
    requires j <= |children| == |crows| == |cts|
    requires forall m :: 0 <= m < |children| ==> children[m].row.id == crows[m].id && Represents(children[m], cts[m], own)
    ensures SlotRepresents(Target(children, j, fk), TargetTree(crows, cts, j, fk), own)
  {
    if j > 0 && fk != Some(crows[j - 1].id) {
      TargetRepresents(children, crows, cts, j - 1, fk, own);
    }
  }

  lemma {:induction false} TargetFound(crows: seq<Row>, cts: seq<Tree>, j: nat, fk: Option<ID>)
    requires j <= |crows| == |cts|
    ensures match TargetTree(crows, cts, j, fk)
      case NoTree => forall m :: 0 <= m < j ==> fk != Some(crows[m].id)
      case OneTree(t) => exists m :: 0 <= m < j && fk == Some(crows[m].id) && t == cts[m]
      case ManyTrees(_) => false
  {
    if j > 0 && fk != Some(crows[j - 1].id) {
      TargetFound(crows, cts, j - 1, fk);
    }
  }

  lemma NoTarget(db: Database, e: Edge, child: Query, ids: set<ID>, r: Row, crows: seq<Row>)
    requires e.M2O?
    requires var fk := Fk(r, e.column, e.nullable); (fk.Some? ==> fk.value in ids) && forall m :: 0 <= m < |crows| ==> fk != Some(crows[m].id)
    requires forall c :: c in crows <==> c in Matching(db, Narrowed(e, child, IdIn(ids)))
    ensures ChildRows(db, e, child, r) == {}
  {
    NarrowedKeeps(db, e, child, IdIn(ids));
    forall c | c in Matching(db, child) ensures Fk(r, e.column, e.nullable) != Some(c.id) {
      if c.id in ids {
        assert c in crows;
      }
    }
  }

  lemma OneTarget(db: Database, e: Edge, child: Query, ids: set<ID>, r: Row, c: Row, t: Tree)
    requires e.M2O? && Fk(r, e.column, e.nullable) == Some(c.id)
    requires var narrowed := Narrowed(e, child, IdIn(ids)); c in Matching(db, narrowed) && Loaded(db, narrowed, narrowed.fields, c, t)
    ensures SlotLoaded(db, With(e, child), r, OneTree(t))
  {
    NarrowedKeeps(db, e, child, IdIn(ids));
    NarrowedLoads(db, e, child, IdIn(ids), c, t);
  }

  /** The value of the slot: the row whose key the parent carries, or nothing when there is none. */
  lemma TargetSlot(db: Database, e: Edge, child: Query, ids: set<ID>, r: Row, crows: seq<Row>, cts: seq<Tree>)
    requires e.M2O? && |crows| == |cts|
    requires var fk := Fk(r, e.column, e.nullable); fk.Some? ==> fk.value in ids
    requires var narrowed := Narrowed(e, child, IdIn(ids));
      && (forall c :: c in crows <==> c in Matching(db, narrowed))
      && (forall j :: 0 <= j < |crows| ==> Loaded(db, narrowed, narrowed.fields, crows[j], cts[j]))
    ensures SlotLoaded(db, With(e, child), r, TargetTree(crows, cts, |crows|, Fk(r, e.column, e.nullable)))
  {
    var fk := Fk(r, e.column, e.nullable);
    TargetFound(crows, cts, |crows|, fk);
    match TargetTree(crows, cts, |crows|, fk)
    case NoTree =>
      NoTarget(db, e, child, ids, r, crows);
    case OneTree(t) =>
      var m :| 0 <= m < |crows| && fk == Some(crows[m].id) && t == cts[m];
      assert crows[m] in crows;
      OneTarget(db, e, child, ids, r, crows[m], t);
  }

  ghost function TargetTrees(e: Edge, rows: seq<Row>, crows: seq<Row>, cts: seq<Tree>): seq<TreeSlot>
    requires e.M2O? && |crows| == |cts|
  {
    seq(|rows|, i requires 0 <= i < |rows| => TargetTree(crows, cts, |crows|, Fk(rows[i], e.column, e.nullable)))
  }

  method LoadM2O(db: Database, q: Query, k: nat, ghost rows: seq<Row>, nodes: seq<Node>)
    returns (err: Option<LoadError>, ghost trees: seq<TreeSlot>, ghost own: set<Node>)
    requires ReadyFor(db, q, k, rows, nodes) && q.edges[k].edge.M2O?
    modifies nodes`slots
    ensures err.None? && fresh(own)
    ensures forall i :: 0 <= i < |nodes| ==> |nodes[i].slots| == |q.edges|
    ensures forall i, e :: 0 <= i < |nodes| && 0 <= e < |q.edges| && e != k ==> nodes[i].slots[e] == old(nodes[i].slots[e])
    ensures EdgeLoaded(db, q, k, rows, nodes, trees, own)
    decreases Height(q), 4
  {
    var child, e := q.edges[k].child, q.edges[k].edge;
    assert EdgeOk(db, q, e, child) && WellFormed(db, child);
    HeightOfChild(q, k);
    ghost var crows: seq<Row> := [];
    ghost var cts: seq<Tree> := [];
    var ids, nodeids := IndexKeys(nodes, e.column, e.nullable);
    ParentKeys(q, k, rows, nodes);
    if |ids| == 0 {
      err, own, trees := None, {}, TargetTrees(e, rows, crows, cts);
      NoKeys(db, q, k, rows, nodes, nodeids, ids);
      return;
    }
    var children;
    err, crows, children, cts, own := SqlAllNarrowed(db, e, child, IdIn(nodeids.Keys));
    TargetsIndexed(db, e, child, nodeids.Keys, crows, children);
    err := StitchTargets(nodes, k, children, e.column, e.nullable, ids, nodeids);
    trees := TargetTrees(e, rows, crows, cts);
    TargetsLoaded(db, q, k, rows, nodes, ids, nodeids, children, crows, cts, own);
  }

  /** The foreign key read from a parent is that of its row. */
  lemma ParentKeys(q: Query, k: nat, rows: seq<Row>, nodes: seq<Node>)
    requires k < |q.edges| && q.edges[k].With? && q.edges[k].edge.M2O? && Scanned(q, rows, nodes)
    ensures var e := q.edges[k].edge;
      forall i :: 0 <= i < |nodes| ==> Fk(nodes[i].row, e.column, e.nullable) == Fk(rows[i], e.column, e.nullable)
  {
    var e := q.edges[k].edge;
    ParentKeyIsSelected(q, k);
    forall i | 0 <= i < |nodes| ensures Fk(nodes[i].row, e.column, e.nullable) == Fk(rows[i], e.column, e.nullable) {
      ProjectKeepsColumn(rows[i], q.keyed, q.fields, q.edges, e.column, e.nullable);
    }
  }

  lemma TargetsIndexed(db: Database, e: Edge, child: Query, ids: set<ID>, crows: seq<Row>, children: seq<Node>)
    requires e.M2O? && child.keyed
    requires var narrowed := Narrowed(e, child, IdIn(ids));
      Scanned(narrowed, crows, children) && forall c :: c in crows <==> c in Matching(db, narrowed)
    ensures forall j :: 0 <= j < |children| ==> children[j].row.id == crows[j].id && children[j].row.id in ids
  {
    NarrowedKeeps(db, e, child, IdIn(ids));
    forall j | 0 <= j < |children| ensures children[j].row.id == crows[j].id && children[j].row.id in ids {
      ProjectKeepsId(crows[j], child.fields, child.edges);
      assert crows[j] in crows && Satisfies(IdIn(ids), crows[j]);
    }
  }

  lemma NoKeys(db: Database, q: Query, k: nat, rows: seq<Row>, nodes: seq<Node>, nodeids: map<ID, seq<Node>>, ids: seq<ID>)
    requires ReadyFor(db, q, k, rows, nodes) && q.edges[k].edge.M2O?
    requires var e := q.edges[k].edge;
      && KeyIndex(nodes, e.column, e.nullable, ids, nodeids) && ids == []
      && forall i :: 0 <= i < |nodes| ==> Fk(nodes[i].row, e.column, e.nullable) == Fk(rows[i], e.column, e.nullable)
    ensures EdgeLoaded(db, q, k, rows, nodes, TargetTrees(q.edges[k].edge, rows, [], []), {})
  {
    var e, child := q.edges[k].edge, q.edges[k].child;
    forall i | 0 <= i < |nodes| ensures SlotLoaded(db, q.edges[k], rows[i], NoTree) {
      var fk := Fk(nodes[i].row, e.column, e.nullable);
      assert fk.Some? ==> fk.value in nodeids;
      assert fk.Some? ==> fk.value !in ids;
      assert ChildRows(db, e, child, rows[i]) == {};
    }
  }

  lemma TargetsLoaded(db: Database, q: Query, k: nat, rows: seq<Row>, nodes: seq<Node>, ids: seq<ID>, nodeids: map<ID, seq<Node>>,
                      children: seq<Node>, crows: seq<Row>, cts: seq<Tree>, own: set<Node>)
    requires k < |q.edges| && q.edges[k].With? && q.edges[k].edge.M2O? && |rows| == |nodes|
    requires |children| == |crows| == |cts|
    requires forall j :: 0 <= j < |children| ==> children[j].row.id == crows[j].id && Represents(children[j], cts[j], own)
    requires var e, child := q.edges[k].edge, q.edges[k].child;
      var narrowed := Narrowed(e, child, IdIn(nodeids.Keys));
      && KeyIndex(nodes, e.column, e.nullable, ids, nodeids)
      && (forall i :: 0 <= i < |nodes| ==> Fk(nodes[i].row, e.column, e.nullable) == Fk(rows[i], e.column, e.nullable))
      && (forall i :: 0 <= i < |nodes| ==> k < |nodes[i].slots|)
      && (forall i :: 0 <= i < |nodes| ==>
           nodes[i].slots[k] == Target(children, |children|, Fk(nodes[i].row, e.column, e.nullable)))
      && (forall c :: c in crows <==> c in Matching(db, narrowed))
      && (forall j :: 0 <= j < |crows| ==> Loaded(db, narrowed, narrowed.fields, crows[j], cts[j]))
    ensures EdgeLoaded(db, q, k, rows, nodes, TargetTrees(q.edges[k].edge, rows, crows, cts), own)
  {
    var e, child := q.edges[k].edge, q.edges[k].child;
    var trees := TargetTrees(e, rows, crows, cts);
    forall i | 0 <= i < |nodes|
      ensures SlotRepresents(nodes[i].slots[k], trees[i], own) && SlotLoaded(db, q.edges[k], rows[i], trees[i])
    {
      var fk := Fk(rows[i], e.column, e.nullable);
      assert fk.Some? ==> fk.value in nodeids;
      TargetRepresents(children, crows, cts, |children|, fk, own);
      TargetSlot(db, e, child, nodeids.Keys, rows[i], crows, cts);
    }
  }

  // ---- Putting the edges together ----

  /** The parts of a loader's contract that do not depend on the kind of edge. */
  method LoadEdge(db: Database, q: Query, k: nat, ghost rows: seq<Row>, nodes: seq<Node>)
    returns (err: Option<LoadError>, ghost trees: seq<TreeSlot>, ghost own: set<Node>)
    requires ReadyFor(db, q, k, rows, nodes)
    modifies nodes`slots
    ensures err.None? && fresh(own)
    ensures forall i :: 0 <= i < |nodes| ==> |nodes[i].slots| == |q.edges|
    ensures forall i, e :: 0 <= i < |nodes| && 0 <= e < |q.edges| && e != k ==> nodes[i].slots[e] == old(nodes[i].slots[e])
    ensures EdgeLoaded(db, q, k, rows, nodes, trees, own)
    decreases Height(q), 5
  {
    match q.edges[k].edge
    case M2M(_) => err, trees, own := LoadM2M(db, q, k, rows, nodes);
    case M2O(_, _) => err, trees, own := LoadM2O(db, q, k, rows, nodes);
    case O2M(_, _) => err, trees, own := LoadO2M(db, q, k, rows, nodes);
  }

  /** The slots below `done` are loaded, the others still nil. */
  ghost predicate Progress(db: Database, q: Query, done: nat, rows: seq<Row>, nodes: seq<Node>, table: seq<seq<TreeSlot>>, own: set<Node>)
    requires |rows| == |nodes| && done <= |q.edges| && |table| == done
    reads nodes, own
  {
    && (forall i :: 0 <= i < |nodes| ==> |nodes[i].slots| == |q.edges|)
    && (forall i, e :: 0 <= i < |nodes| && done <= e < |q.edges| ==> nodes[i].slots[e] == Nil)
    && (forall e :: 0 <= e < done ==> EdgeLoaded(db, q, e, rows, nodes, table[e], own))
  }

  lemma NotRequested(db: Database, q: Query, k: nat, rows: seq<Row>, nodes: seq<Node>, own: set<Node>)
    requires |rows| == |nodes| && k < |q.edges| && q.edges[k].Omitted?
    requires forall i :: 0 <= i < |nodes| ==> k < |nodes[i].slots| && nodes[i].slots[k] == Nil
    ensures EdgeLoaded(db, q, k, rows, nodes, seq(|nodes|, _ => NoTree), own)
  {
  }

  lemma EdgeLoadedWider(db: Database, q: Query, k: nat, rows: seq<Row>, nodes: seq<Node>, trees: seq<TreeSlot>, own: set<Node>, wider: set<Node>)
    requires |rows| == |nodes| && k < |q.edges| && own <= wider
    requires EdgeLoaded(db, q, k, rows, nodes, trees, own)
    ensures EdgeLoaded(db, q, k, rows, nodes, trees, wider)
  {
    forall i | 0 <= i < |nodes| ensures SlotRepresents(nodes[i].slots[k], trees[i], wider) {
      SlotRepresentsWider(nodes[i].slots[k], trees[i], own, wider);
    }
  }

  /** Row `i` of the slot table, as a tree. */
  ghost function TreeOf(q: Query, n: Node, table: seq<seq<TreeSlot>>, i: nat): Tree
    requires |table| == |q.edges|
  {
    Tree(n.row, n.loaded, seq(|table|, e requires 0 <= e < |table| => if i < |table[e]| then table[e][i] else NoTree))
  }

  lemma AllEdgesLoaded(db: Database, q: Query, rows: seq<Row>, nodes: seq<Node>, table: seq<seq<TreeSlot>>, own: set<Node>, i: nat)
    requires Scanned(q, rows, nodes) && |table| == |q.edges| && i < |nodes|
    requires Progress(db, q, |q.edges|, rows, nodes, table, own) && nodes[i] in own
    ensures Represents(nodes[i], TreeOf(q, nodes[i], table, i), own)
    ensures Loaded(db, q, q.fields, rows[i], TreeOf(q, nodes[i], table, i)) <==>
      forall k :: 0 <= k < |q.edges| ==> Served(db, q.edges[k], rows, i)
  {
    forall e | 0 <= e < |table| ensures EdgeLoaded(db, q, e, rows, nodes, table[e], own) {}
    var t := TreeOf(q, nodes[i], table, i);
    assert forall k :: 0 <= k < |q.edges| ==> (SlotLoaded(db, q.edges[k], rows[i], t.slots[k]) <==> Served(db, q.edges[k], rows, i));
  }

  /** Loads the requested edges one after the other, in declaration order. For any list of parents, repeated
      IDs included, a parent ends with its own answer exactly when every request serves it. */
  method LoadEdges(db: Database, q: Query, ghost rows: seq<Row>, nodes: seq<Node>)
    returns (err: Option<LoadError>, ghost ts: seq<Tree>, ghost own: set<Node>)
    requires WellFormed(db, q) && Scanned(q, rows, nodes) && AllNil(q, nodes)
    requires forall i :: 0 <= i < |rows| ==> rows[i] in Rows(db, q.table)
    modifies nodes`slots
    ensures err.None? && forall n :: n in own ==> n in nodes || fresh(n)
    ensures |ts| == |nodes| && forall i :: 0 <= i < |nodes| ==> Represents(nodes[i], ts[i], own)
    ensures forall i :: 0 <= i < |nodes| ==>
      (Loaded(db, q, q.fields, rows[i], ts[i]) <==> forall k :: 0 <= k < |q.edges| ==> Served(db, q.edges[k], rows, i))
    decreases Height(q), 7
  {
    ghost var table: seq<seq<TreeSlot>> := [];
    own, err := {}, None;
    for k := 0 to |q.edges|
      invariant err.None? && fresh(own) && |table| == k
      invariant Progress(db, q, k, rows, nodes, table, own)
    {
      table, own, err := LoadNext(db, q, k, rows, nodes, table, own);
    }
    ghost var below := own;
    own := below + set n | n in nodes;
    forall e | 0 <= e < |q.edges| ensures EdgeLoaded(db, q, e, rows, nodes, table[e], own) {
      EdgeLoadedWider(db, q, e, rows, nodes, table[e], below, own);
    }
    ts := seq(|nodes|, i requires 0 <= i < |nodes| => TreeOf(q, nodes[i], table, i));
    forall i | 0 <= i < |nodes| {
      AllEdgesLoaded(db, q, rows, nodes, table, own, i);
    }
  }

  method LoadNext(db: Database, q: Query, k: nat, ghost rows: seq<Row>, nodes: seq<Node>, ghost table: seq<seq<TreeSlot>>, ghost own: set<Node>)
    returns (ghost table': seq<seq<TreeSlot>>, ghost own': set<Node>, err: Option<LoadError>)
    requires WellFormed(db, q) && Scanned(q, rows, nodes) && k < |q.edges| && |table| == k
    requires forall i :: 0 <= i < |rows| ==> rows[i] in Rows(db, q.table)
    requires Progress(db, q, k, rows, nodes, table, own) && forall n :: n in nodes ==> n !in own
    modifies nodes`slots
    ensures err.None? && own <= own' && fresh(own' - own) && |table'| == k + 1
    ensures Progress(db, q, k + 1, rows, nodes, table', own')
    decreases Height(q), 6
  {
    ghost var trees := seq(|nodes|, _ => NoTree);
    ghost var below: set<Node> := {};
    err := None;
    if q.edges[k].With? {
      err, trees, below := LoadEdge(db, q, k, rows, nodes);
    } else {
      NotRequested(db, q, k, rows, nodes, below);
    }
    own', table' := own + below, table + [trees];
    forall e | 0 <= e <= k ensures EdgeLoaded(db, q, e, rows, nodes, table'[e], own') {
      if e < k {
        assert EdgeLoaded(db, q, e, rows, nodes, table[e], own);
        EdgeLoadedWider(db, q, e, rows, nodes, table[e], own, own');
      } else {
        EdgeLoadedWider(db, q, e, rows, nodes, trees, below, own');
      }
    }
  }
}
