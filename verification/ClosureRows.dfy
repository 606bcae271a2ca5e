/** Rows of the closure table as they travel between a service and the database. */
module ClosureRows {
  import opened Domain
  import opened ClosureTable
  import opened Tables

  datatype ClosureRow = ClosureRow(tenantId: Id, ancestor: Id, descendant: Id, depth: nat) {
    function Key(): (Id, Id, Id) { (tenantId, ancestor, descendant) }
  }

  function RowsOf(c: Closure): set<ClosureRow> {
    set k | k in c :: ClosureRow(k.0, k.1, k.2, c[k])
  }

  lemma {:induction false} RowOf(c: Closure, r: ClosureRow)
    ensures r in RowsOf(c) <==> r.Key() in c && c[r.Key()] == r.depth
  {
  }

  /** `createMany` with `skipDuplicates`, row by row. */
  function InsertAll(c: Closure, rows: seq<ClosureRow>): Closure {
    if rows == [] then c
    else
      var before := InsertAll(c, rows[..|rows| - 1]);
      var r := rows[|rows| - 1];
      if r.Key() in before then before else before[r.Key() := r.depth]
  }

  /** Rows that spell out a table `add` of tenant `t`. */
  ghost predicate Spells(rows: seq<ClosureRow>, t: Id, add: Table) {
    && (forall r :: r in rows ==>
          r.tenantId == t && (r.ancestor, r.descendant) in add
          && add[(r.ancestor, r.descendant)] == r.depth)
    && (forall k :: k in add ==> ClosureRow(t, k.0, k.1, add[k]) in rows)
  }

  /** The rows of the list that bring something new. */
  lemma {:induction false} InsertAllEffect(c: Closure, rows: seq<ClosureRow>, t: Id, add: Table, s: Id, a: Id, d: Id)
    requires forall r :: r in rows ==>
               r.tenantId == t && (r.ancestor, r.descendant) in add
               && add[(r.ancestor, r.descendant)] == r.depth
    ensures (s, a, d) in InsertAll(c, rows) <==>
      (s, a, d) in c || (s == t && (a, d) in add && ClosureRow(t, a, d, add[(a, d)]) in rows)
    ensures (s, a, d) in InsertAll(c, rows) ==>
      InsertAll(c, rows)[(s, a, d)] == if (s, a, d) in c then c[(s, a, d)] else add[(a, d)]
    decreases |rows|
  {
    if rows != [] {
      var n := |rows| - 1;
      assert rows == rows[..n] + [rows[n]];
      InsertAllEffect(c, rows[..n], t, add, s, a, d);
    }
  }

  /** No two rows disagree about a key. */
  ghost predicate OneDepthEach(rows: seq<ClosureRow>) {
    forall r, q :: r in rows && q in rows && r.Key() == q.Key() ==> r == q
  }

  /** Rows that do not disagree are all found in an empty table they are inserted into,
      and nothing else is. */
  lemma {:induction false} InsertedIntoEmpty(rows: seq<ClosureRow>, r: ClosureRow)
    requires OneDepthEach(rows)
    ensures r in rows <==> r.Key() in InsertAll(map[], rows) && InsertAll(map[], rows)[r.Key()] == r.depth
    decreases |rows|
  {
    if rows != [] {
      var n := |rows| - 1;
      var front, last := rows[..n], rows[n];
      assert rows == front + [last];
      InsertedIntoEmpty(front, r);
      if r.Key() == last.Key() && r.Key() in InsertAll(map[], front) {
        var q := r.(depth := InsertAll(map[], front)[r.Key()]);
        InsertedIntoEmpty(front, q);
        assert q in rows && q.Key() == last.Key();
      }
    }
  }

  /** Such rows of one tenant spell the table they leave behind. */
  lemma {:induction false} InsertedSpells(rows: seq<ClosureRow>, t: Id)
    requires OneDepthEach(rows) && (forall r :: r in rows ==> r.tenantId == t)
    ensures Spells(rows, t, Slice(InsertAll(map[], rows), t))
  {
    hide Slice, InsertAll, OneDepthEach;
    var c := InsertAll(map[], rows);
    forall r | r in rows
      ensures (r.ancestor, r.descendant) in Slice(c, t) && Slice(c, t)[(r.ancestor, r.descendant)] == r.depth
    {
      InsertedIntoEmpty(rows, r);
      SliceRow(c, t, r.ancestor, r.descendant);
    }
    forall k | k in Slice(c, t) ensures ClosureRow(t, k.0, k.1, Slice(c, t)[k]) in rows {
      assert k == (k.0, k.1);
      SliceRow(c, t, k.0, k.1);
      InsertedIntoEmpty(rows, ClosureRow(t, k.0, k.1, c[(t, k.0, k.1)]));
    }
  }

  /** Inserting a spelled-out table: the existing rows win. */
  lemma {:induction false} InsertAllIsUnion(c: Closure, rows: seq<ClosureRow>, t: Id, add: Table)
    requires Spells(rows, t, add)
    ensures InsertAll(c, rows) == WithSlice(c, t, add + Slice(c, t))
  {
    var c' := InsertAll(c, rows);
    var table := add + Slice(c, t);
    forall s, a, d
      ensures (s, a, d) in c' <==> if s == t then (a, d) in table else (s, a, d) in c
      ensures (s, a, d) in c' ==> c'[(s, a, d)] == if s == t then table[(a, d)] else c[(s, a, d)]
    {
      InsertAllEffect(c, rows, t, add, s, a, d);
      SliceRow(c, t, a, d);
      if (a, d) in add {
        var k := (a, d);
        assert ClosureRow(t, k.0, k.1, add[k]) in rows;
      }
    }
    IsWithSlice(c', c, t, table);
  }

  /** Deleting rows of one tenant. */
  lemma {:induction false} DeleteIsSlice(c: Closure, c': Closure, t: Id, table: Table)
    requires c'.Keys <= c.Keys && (forall k :: k in c' ==> c'[k] == c[k])
    requires forall k :: k in c && k.0 != t ==> k in c'
    requires table.Keys <= Slice(c, t).Keys && (forall p :: p in table ==> table[p] == Slice(c, t)[p])
    requires forall a, d :: (t, a, d) in c ==> ((t, a, d) in c' <==> (a, d) in table)
    ensures c' == WithSlice(c, t, table)
  {
  }

  lemma {:induction false} WithSliceTwice(c: Closure, t: Id, first: Table, second: Table)
    ensures WithSlice(WithSlice(c, t, first), t, second) == WithSlice(c, t, second)
  {
  }
}
