/** The hierarchy service: maintenance of the closure table by row operations, and
    relationship questions answered by row lookups. */
module HierarchyService {
  import opened Domain
  import opened Forest
  import opened ClosureTable
  import opened ClosureRows
  import opened Tables
  import opened HierarchySpec
  import opened HierarchyAnswers
  import opened Query
  import opened Database

  // ---------------------------------------------------------------------------
  // What the queries return, in terms of the tenant's slice
  // ---------------------------------------------------------------------------

  /** `rows` lists the rows of tenant `t` that satisfy `p`. */
  ghost predicate ListsSlice(rows: seq<ClosureRow>, c: Closure, t: Id, p: (Id, Id) -> bool) {
    forall r :: r in rows <==>
      r.tenantId == t && (t, r.ancestor, r.descendant) in c
      && c[(t, r.ancestor, r.descendant)] == r.depth && p(r.ancestor, r.descendant)
  }

  lemma {:induction false} SubtreeIds(rows: seq<ClosureRow>, c: Closure, t: Id, u: Id)
    requires ListsSlice(rows, c, t, (a, d) => a == u)
    ensures forall r :: r in rows ==>
      r.ancestor == u && (u, r.descendant) in Slice(c, t) && Slice(c, t)[(u, r.descendant)] == r.depth
    ensures forall d :: d in Descendants(Slice(c, t), u) ==>
      ClosureRow(t, u, d, Slice(c, t)[(u, d)]) in rows
  {
  }

  lemma {:induction false} SuperIds(rows: seq<ClosureRow>, c: Closure, t: Id, x: Id)
    requires ListsSlice(rows, c, t, (a, d) => d == x)
    ensures forall r :: r in rows ==>
      r.descendant == x && (r.ancestor, x) in Slice(c, t) && Slice(c, t)[(r.ancestor, x)] == r.depth
    ensures forall a :: a in Ancestors(Slice(c, t), x) ==>
      ClosureRow(t, a, x, Slice(c, t)[(a, x)]) in rows
  {
  }

  lemma {:induction false} ProperIds(rows: seq<ClosureRow>, c: Closure, t: Id, u: Id)
    requires ListsSlice(rows, c, t, (a, d) => d == u && a != u)
    ensures (set r | r in rows :: r.ancestor) == ProperAncestors(Slice(c, t), u)
  {
    forall a ensures a in (set r | r in rows :: r.ancestor) <==> a in ProperAncestors(Slice(c, t), u) {
      SliceRow(c, t, a, u);
      if a in ProperAncestors(Slice(c, t), u) {
        assert ClosureRow(t, a, u, c[(t, a, u)]) in rows;
      }
    }
  }

  /** Deleting every row from an old ancestor into the subtree is the detachment of
      the specification. */
  lemma {:induction false} DeleteIsDetach(c: Closure, c': Closure, t: Id, u: Id, sub: set<Id>, proper: set<Id>)
    requires sub == Descendants(Slice(c, t), u) && proper == ProperAncestors(Slice(c, t), u)
    requires c' == map k | k in c && !(k.0 == t && k.2 in sub && k.1 in proper) :: c[k]
    ensures c' == WithSlice(c, t, Detach(Slice(c, t), u))
  {
    var table := Detach(Slice(c, t), u);
    forall a, d | (t, a, d) in c ensures (t, a, d) in c' <==> (a, d) in table {
      SliceRow(c, t, a, d);
    }
    DeleteIsSlice(c, c', t, table);
  }

  lemma {:induction false} InsertSelf(c: Closure, t: Id, u: Id)
    ensures InsertAll(c, [ClosureRow(t, u, u, 0)]) == WithSlice(c, t, WithNode(Slice(c, t), u))
  {
    var add: Table := map[(u, u) := 0];
    InsertAllIsUnion(c, [ClosureRow(t, u, u, 0)], t, add);
    assert add + Slice(c, t) == WithNode(Slice(c, t), u);
  }

  /** `r` is the row for one ancestor of the new manager and one member of the
      subtree. */
  predicate IsCross(r: ClosureRow, t: Id, anc: ClosureRow, desc: ClosureRow) {
    r == ClosureRow(t, anc.ancestor, desc.descendant, anc.depth + desc.depth + 1)
  }

  ghost predicate CrossOf(r: ClosureRow, t: Id, superTree: seq<ClosureRow>, subtree: seq<ClosureRow>) {
    exists anc, desc :: anc in superTree && desc in subtree && IsCross(r, t, anc, desc)
  }

  /** The rows built by the nested loops spell out the cross join. */
  lemma {:induction false} CrossRowsSpell(
      rows: seq<ClosureRow>, c: Closure, t: Id, u: Id, x: Id,
      superTree: seq<ClosureRow>, subtree: seq<ClosureRow>)
    requires ListsSlice(subtree, c, t, (a, d) => a == u)
    requires ListsSlice(superTree, c, t, (a, d) => d == x)
    requires forall r :: r in rows <==> CrossOf(r, t, superTree, subtree)
    ensures Spells(rows, t, CrossJoin(Slice(c, t), u, x))
  {
    var table := Slice(c, t);
    SubtreeIds(subtree, c, t, u);
    SuperIds(superTree, c, t, x);
    forall r | r in rows
      ensures r.tenantId == t && (r.ancestor, r.descendant) in CrossJoin(table, u, x)
      ensures CrossJoin(table, u, x)[(r.ancestor, r.descendant)] == r.depth
    {
      CrossJoinRow(table, u, x, r.ancestor, r.descendant);
    }
    forall k | k in CrossJoin(table, u, x)
      ensures ClosureRow(t, k.0, k.1, CrossJoin(table, u, x)[k]) in rows
    {
      assert k.0 in Ancestors(table, x) && k.1 in Descendants(table, u);
      var anc := ClosureRow(t, k.0, x, table[(k.0, x)]);
      var desc := ClosureRow(t, u, k.1, table[(u, k.1)]);
      assert IsCross(ClosureRow(t, k.0, k.1, CrossJoin(table, u, x)[k]), t, anc, desc);
    }
  }

  lemma {:induction false} RegisteredRows(c: Closure, t: Id, u: Id, x: Id)
    ensures var c1 := WithSlice(c, t, WithNode(Slice(c, t), u));
      WithSlice(c1, t, WithNode(Slice(c1, t), x)) == WithSlice(c, t, WithNode(WithNode(Slice(c, t), u), x))
  {
    var first := WithNode(Slice(c, t), u);
    SliceOfWithSlice(c, t, first, t);
    WithSliceTwice(c, t, first, WithNode(first, x));
  }

  lemma {:induction false} FoundExactly(c: Closure, t: Id, u: Id, x: Id, found: Option<ClosureRow>)
    requires found.Some? ==> found.value in RowsOf(c)
    requires found.Some? ==>
      found.value.tenantId == t && found.value.ancestor == u && found.value.descendant == x
    requires found.None? ==>
      forall r :: r in RowsOf(c) ==> !(r.tenantId == t && r.ancestor == u && r.descendant == x)
    ensures found.Some? <==> (u, x) in Slice(c, t)
  {
    SliceRow(c, t, u, x);
    if found.Some? {
      RowOf(c, found.value);
    } else if (t, u, x) in c {
      RowOf(c, ClosureRow(t, u, x, c[(t, u, x)]));
    }
  }

  lemma {:induction false} ListedSlice(rows: seq<ClosureRow>, c: Closure, t: Id, p: (Id, Id) -> bool)
    requires forall r :: r in rows <==> r in RowsOf(c) && r.tenantId == t && p(r.ancestor, r.descendant)
    ensures ListsSlice(rows, c, t, p)
  {
  }

  lemma {:induction false} DetachedSlice(
      c: Closure, c': Closure, t: Id, u: Id, subtree: seq<ClosureRow>, oldAncestors: seq<ClosureRow>)
    requires ListsSlice(subtree, c, t, (a, d) => a == u)
    requires ListsSlice(oldAncestors, c, t, (a, d) => d == u && a != u)
    requires var subtreeIds := set r | r in subtree :: r.descendant;
      var oldAncestorIds := set r | r in oldAncestors :: r.ancestor;
      c' == if |oldAncestors| > 0
        then map k | k in c && !(k.0 == t && k.2 in subtreeIds && k.1 in oldAncestorIds) :: c[k]
        else c
    ensures c' == WithSlice(c, t, Detach(Slice(c, t), u))
  {
    var sub := set r | r in subtree :: r.descendant;
    var anc := set r | r in oldAncestors :: r.ancestor;
    SubtreeIds(subtree, c, t, u);
    ProperIds(oldAncestors, c, t, u);
    assert sub == Descendants(Slice(c, t), u) by {
      forall d | d in Descendants(Slice(c, t), u) ensures d in sub {
        assert ClosureRow(t, u, d, Slice(c, t)[(u, d)]) in subtree;
      }
    }
    if |oldAncestors| == 0 {
      assert anc == {};
      assert c' == map k | k in c && !(k.0 == t && k.2 in sub && k.1 in anc) :: c[k];
    }
    DeleteIsDetach(c, c', t, u, sub, anc);
  }

  lemma {:induction false} CrossJoinIds(table: Table, users: map<Id, User>, u: Id, x: Id)
    requires IdsIn(table, users)
    ensures IdsIn(CrossJoin(table, u, x), users)
  {
  }

  lemma {:induction false} AttachedSlice(c: Closure, t: Id, u: Id, x: Id)
    ensures var detached := WithSlice(c, t, Detach(Slice(c, t), u));
      WithSlice(detached, t, CrossJoin(Slice(c, t), u, x) + Slice(detached, t))
      == WithSlice(c, t, Reparent(Slice(c, t), u, x))
  {
    var table := Slice(c, t);
    SliceOfWithSlice(c, t, Detach(table, u), t);
    WithSliceTwice(c, t, Detach(table, u), Reparent(table, u, x));
  }

  class HierarchyService {
    const db: Database

    constructor (db: Database)
      ensures this.db == db
    {
      this.db := db;
    }

    // -------------------------------------------------------------------------
    // Maintenance
    // -------------------------------------------------------------------------

    /** Inserts the self row; a second call changes nothing. */
    method AddNode(tenantId: Id, userId: Id) returns (outcome: Outcome)
      modifies db`closure
      ensures db.Snapshot() == AddNodeTo(old(db.Snapshot()), tenantId, userId)
      ensures outcome == if userId in db.users then Done else NoSuchUser
    {
      var self := ClosureRow(tenantId, userId, userId, 0);
      InsertSelf(db.closure, tenantId, userId);
      var ok := db.CreateClosureRows([self]);
      outcome := if ok then Done else NoSuchUser;
      assert self in [self];
    }

    /** Every ancestor of the new manager over every descendant of the user. */
    method CrossJoinRows(tenantId: Id, superTree: seq<ClosureRow>, subtree: seq<ClosureRow>)
      returns (rows: seq<ClosureRow>)
      ensures forall r :: r in rows <==> CrossOf(r, tenantId, superTree, subtree)
    {
      rows := [];
      for i := 0 to |superTree|
        invariant forall r :: r in rows <==> CrossOf(r, tenantId, superTree[..i], subtree)
      {
        var anc := superTree[i];
        ghost var before := rows;
        for j := 0 to |subtree|
          invariant forall r :: r in rows <==> (r in before || CrossOf(r, tenantId, [anc], subtree[..j]))
        {
          var desc := subtree[j];
          rows := rows + [ClosureRow(tenantId, anc.ancestor, desc.descendant, anc.depth + desc.depth + 1)];
          assert subtree[..j + 1] == subtree[..j] + [desc];
          assert IsCross(rows[|rows| - 1], tenantId, anc, desc);
        }
        assert superTree[..i + 1] == superTree[..i] + [anc];
        assert subtree[..|subtree|] == subtree;
      }
      assert superTree[..|superTree|] == superTree;
    }

    /** Both ends of the new edge get a self row; the foreign key may refuse. */
    method RegisterBoth(tenantId: Id, userId: Id, managerId: Id) returns (outcome: Outcome)
      modifies db`closure
      ensures outcome == if userId in db.users && managerId in db.users then Done else NoSuchUser
      ensures outcome == Done ==> db.closure == WithSlice(old(db.closure), tenantId,
        WithNode(WithNode(Slice(old(db.closure), tenantId), userId), managerId))
    {
      outcome := AddNode(tenantId, userId);
      if outcome == Done {
        outcome := AddNode(tenantId, managerId);
        RegisteredRows(old(db.closure), tenantId, userId, managerId);
      }
    }

    /** Is there a row from `userId` to `managerId`? */
    method HasRow(tenantId: Id, userId: Id, managerId: Id) returns (found: bool)
      ensures found <==> (userId, managerId) in Slice(db.closure, tenantId)
    {
      var row := db.FindFirstClosureRow(
        (r: ClosureRow) => r.tenantId == tenantId && r.ancestor == userId && r.descendant == managerId);
      FoundExactly(db.closure, tenantId, userId, managerId, row);
      found := row.Some?;
    }

    method SubtreeOf(tenantId: Id, userId: Id) returns (rows: seq<ClosureRow>)
      ensures ListsSlice(rows, db.closure, tenantId, (a, d) => a == userId)
    {
      rows := db.FindClosureRows((r: ClosureRow) => r.tenantId == tenantId && r.ancestor == userId);
      ListedSlice(rows, db.closure, tenantId, (a, d) => a == userId);
    }

    method SuperTreeOf(tenantId: Id, managerId: Id) returns (rows: seq<ClosureRow>)
      ensures ListsSlice(rows, db.closure, tenantId, (a, d) => d == managerId)
    {
      rows := db.FindClosureRows((r: ClosureRow) => r.tenantId == tenantId && r.descendant == managerId);
      ListedSlice(rows, db.closure, tenantId, (a, d) => d == managerId);
    }

    /** Detaches the subtree from any previous ancestors. */
    method DetachSubtree(tenantId: Id, userId: Id, subtree: seq<ClosureRow>)
      requires ListsSlice(subtree, db.closure, tenantId, (a, d) => a == userId)
      modifies db`closure
      ensures db.closure == WithSlice(old(db.closure), tenantId, Detach(Slice(old(db.closure), tenantId), userId))
    {
      var oldAncestors := db.FindClosureRows(
        (r: ClosureRow) => r.tenantId == tenantId && r.descendant == userId && r.ancestor != userId);
      ListedSlice(oldAncestors, db.closure, tenantId, (a, d) => d == userId && a != userId);
      var subtreeIds := set r | r in subtree :: r.descendant;
      var oldAncestorIds := set r | r in oldAncestors :: r.ancestor;
      if |oldAncestors| > 0 {
        db.DeleteClosureRows((r: ClosureRow) =>
          r.tenantId == tenantId && r.descendant in subtreeIds && r.ancestor in oldAncestorIds);
      }
      DetachedSlice(old(db.closure), db.closure, tenantId, userId, subtree, oldAncestors);
    }

    /** Inserts the cross join of the two row lists, when there is any. */
    method AttachSubtree(tenantId: Id, superTree: seq<ClosureRow>, subtree: seq<ClosureRow>,
                         ghost c: Closure, ghost userId: Id, ghost managerId: Id)
      requires ListsSlice(subtree, c, tenantId, (a, d) => a == userId)
      requires ListsSlice(superTree, c, tenantId, (a, d) => d == managerId)
      requires IdsIn(Slice(c, tenantId), db.users)
      modifies db`closure
      ensures db.closure == WithSlice(old(db.closure), tenantId,
        CrossJoin(Slice(c, tenantId), userId, managerId) + Slice(old(db.closure), tenantId))
    {
      var rows := CrossJoinRows(tenantId, superTree, subtree);
      CrossRowsSpell(rows, c, tenantId, userId, managerId, superTree, subtree);
      CrossJoinIds(Slice(c, tenantId), db.users, userId, managerId);
      if |rows| > 0 {
        assert forall r :: r in rows ==>
          (r.ancestor, r.descendant) in CrossJoin(Slice(c, tenantId), userId, managerId);
        var inserted := db.CreateClosureRows(rows);
        assert inserted;
      }
      InsertAllIsUnion(old(db.closure), rows, tenantId, CrossJoin(Slice(c, tenantId), userId, managerId));
    }

    /** The row operations of an accepted move. */
    method MoveSubtree(tenantId: Id, userId: Id, managerId: Id)
      requires IdsIn(Slice(db.closure, tenantId), db.users)
      modifies db`closure
      ensures db.closure == WithSlice(old(db.closure), tenantId,
        Reparent(Slice(old(db.closure), tenantId), userId, managerId))
    {
      var subtree := SubtreeOf(tenantId, userId);
      var superTree := SuperTreeOf(tenantId, managerId);
      ghost var c := db.closure;
      DetachSubtree(tenantId, userId, subtree);
      AttachSubtree(tenantId, superTree, subtree, c, userId, managerId);
      AttachedSlice(c, tenantId, userId, managerId);
    }

    /** The closure part of the transaction; a throw rolls the table back. */
    method UpdateClosure(tenantId: Id, userId: Id, managerId: Id) returns (outcome: Outcome)
      requires KeysValid(db.Snapshot()) && userId != managerId
      modifies db`closure
      ensures outcome == AssignOutcome(old(db.Snapshot()), tenantId, userId, managerId)
      ensures outcome != Done ==> db.Snapshot() == old(db.Snapshot())
      ensures outcome == Done ==> WithEdge(db.Snapshot(), tenantId, userId, managerId)
                                  == AssignManagerTo(old(db.Snapshot()), tenantId, userId, managerId)
    {
      ghost var s := db.Snapshot();
      ghost var table := Registered(s, tenantId, userId, managerId);
      var begin := db.closure;

      // Ensure both nodes exist.
      outcome := RegisterBoth(tenantId, userId, managerId);
      if outcome != Done {
        db.closure := begin;
        return;
      }
      SliceOfWithSlice(s.closure, tenantId, table, tenantId);

      // Cycle check.
      var wouldCycle := HasRow(tenantId, userId, managerId);
      if wouldCycle {
        db.closure := begin;
        return WouldCycle;
      }

      RegisteredIds(s, tenantId, userId, managerId);
      MoveSubtree(tenantId, userId, managerId);
      WithSliceTwice(s.closure, tenantId, table, Moved(s, tenantId, userId, managerId));
      assert db.Snapshot() == WithRows(s, tenantId, Moved(s, tenantId, userId, managerId));
    }

    /** Attaches or re-parents the subtree of `userId` under `managerId`. */
    method AssignManager(tenantId: Id, userId: Id, managerId: Id) returns (outcome: Outcome)
      requires KeysValid(db.Snapshot())
      modifies db`closure, db`users
      ensures db.Snapshot() == AssignManagerTo(old(db.Snapshot()), tenantId, userId, managerId)
      ensures outcome == AssignOutcome(old(db.Snapshot()), tenantId, userId, managerId)
    {
      hide Registered, Reparent, WithSlice;
      if userId == managerId {
        return SelfManager;
      }
      outcome := UpdateClosure(tenantId, userId, managerId);
      if outcome != Done {
        return;
      }
      ghost var s' := db.Snapshot();
      db.SetManagerWhere(userId, tenantId, managerId);
      assert db.Snapshot() == WithEdge(s', tenantId, userId, managerId);
    }

    // -------------------------------------------------------------------------
    // Queries: single row lookups, no recursion
    // -------------------------------------------------------------------------

    method IsDirectManager(tenantId: Id, subjectId: Id, targetId: Id) returns (answer: bool)
      requires OrgConsistent(db.Snapshot())
      ensures answer <==> ManagerOf(OrgOf(db.Snapshot(), tenantId), targetId) == Some(subjectId)
    {
      var row := db.FindFirstClosureRow((r: ClosureRow) =>
        r.tenantId == tenantId && r.ancestor == subjectId && r.descendant == targetId && r.depth == 1);
      DirectRowIsManager(db.Snapshot(), tenantId, subjectId, targetId, row);
      answer := row.Some?;
    }

    method IsAncestor(tenantId: Id, subjectId: Id, targetId: Id) returns (answer: bool)
      requires OrgConsistent(db.Snapshot())
      ensures answer <==> subjectId in Chain(OrgOf(db.Snapshot(), tenantId), targetId)
    {
      var row := db.FindFirstClosureRow((r: ClosureRow) =>
        r.tenantId == tenantId && r.ancestor == subjectId && r.descendant == targetId && 1 <= r.depth);
      RowIsAuthority(db.Snapshot(), tenantId, subjectId, targetId, row);
      answer := row.Some?;
    }

    method DirectManagerId(tenantId: Id, userId: Id) returns (manager: Option<Id>)
      requires OrgConsistent(db.Snapshot())
      ensures manager == ManagerOf(OrgOf(db.Snapshot(), tenantId), userId)
    {
      var row := db.FindFirstClosureRow((r: ClosureRow) =>
        r.tenantId == tenantId && r.descendant == userId && r.depth == 1);
      DepthOneIsManager(db.Snapshot(), tenantId, userId, row);
      manager := if row.Some? then Some(row.value.ancestor) else None;
    }

    /** Classifies the subject's relationship to the target: the strongest one that
        applies, as the recursive walk would find it. */
    method GetRelationship(tenantId: Id, subjectId: Id, targetId: Id) returns (relationship: Relationship)
      requires OrgConsistent(db.Snapshot())
      ensures relationship == RelationshipOf(OrgOf(db.Snapshot(), tenantId), subjectId, targetId)
    {
      if subjectId == targetId {
        return Self;
      }
      var row := db.FindFirstClosureRow((r: ClosureRow) =>
        r.tenantId == tenantId && r.ancestor == subjectId && r.descendant == targetId && 1 <= r.depth);
      RowIsAuthority(db.Snapshot(), tenantId, subjectId, targetId, row);
      ManagerInChain(db.Snapshot(), tenantId, subjectId, targetId);
      if row.Some? {
        return if row.value.depth == 1 then DirectManager else Ancestor;
      }
      var subjectManager := DirectManagerId(tenantId, subjectId);
      var targetManager := DirectManagerId(tenantId, targetId);
      ManagersNamed(db.Snapshot(), tenantId, subjectId);
      if Truthy(subjectManager) && Truthy(targetManager) && subjectManager == targetManager {
        return Sibling;
      }
      return Unrelated;
    }

    /** The whole chain in order: entry i is the manager i + 1 hops up, and there is none
        beyond the last entry. */
    method GetAncestors(tenantId: Id, userId: Id) returns (result: seq<Relative>)
      requires OrgConsistent(db.Snapshot())
      ensures forall i :: 0 <= i < |result| ==> result[i].depth == i + 1
      ensures forall i :: 0 <= i < |result| ==>
        Up(OrgOf(db.Snapshot(), tenantId), userId, i + 1) == Some(result[i].userId)
      ensures Up(OrgOf(db.Snapshot(), tenantId), userId, |result| + 1) == None
    {
      var rows := db.FindClosureRowsByDepth((r: ClosureRow) =>
        r.tenantId == tenantId && r.descendant == userId && 1 <= r.depth);
      AncestorRowsAreChain(db.Snapshot(), tenantId, userId, rows);
      OrgAcyclic(db.Snapshot(), tenantId);
      ChainIsUp(OrgOf(db.Snapshot(), tenantId), userId);
      result := seq(|rows|, (i: int) requires 0 <= i < |rows| => Relative(rows[i].ancestor, rows[i].depth));
    }

    /** Everybody below, sorted by depth: `v` at depth k exactly when `userId` is k hops
        above `v`. */
    method GetDescendants(tenantId: Id, userId: Id) returns (result: seq<Relative>)
      requires OrgConsistent(db.Snapshot())
      ensures forall v, k: nat :: Relative(v, k) in result <==>
        1 <= k && Up(OrgOf(db.Snapshot(), tenantId), v, k) == Some(userId)
      ensures NoDuplicates(result)
      ensures forall i, j :: 0 <= i < j < |result| ==> result[i].depth <= result[j].depth
    {
      var rows := db.FindClosureRowsByDepth((r: ClosureRow) =>
        r.tenantId == tenantId && r.ancestor == userId && 1 <= r.depth);
      result := seq(|rows|, (i: int) requires 0 <= i < |rows| => Relative(rows[i].descendant, rows[i].depth));
      DescendantsListed(db.Snapshot(), tenantId, userId, rows, result);
    }
  }
}
