/** The simple specification of an organization: a partial map from a user to its
    manager, walked one hop at a time.  Everything the closure table answers is
    specified here by that walk. */
module Forest {
  import opened Domain
  import opened Query

  type Edges = map<Id, Id>

  /** The k-th manager of `d`; `d` itself for k = 0. */
  function Up(m: Edges, d: Id, k: nat): Option<Id>
    decreases k
  {
    if k == 0 then Some(d)
    else if d in m then Up(m, m[d], k - 1)
    else None
  }

  ghost predicate Acyclic(m: Edges) {
    forall d, k: nat :: 0 < k ==> Up(m, d, k) != Some(d)
  }

  /** `a` is `d` or one of its managers, direct or not. */
  ghost predicate Above(m: Edges, a: Id, d: Id) {
    exists k: nat :: Up(m, d, k) == Some(a)
  }

  lemma {:induction false} UpCompose(m: Edges, d: Id, i: nat, j: nat)
    ensures Up(m, d, i + j) == if Up(m, d, i).Some? then Up(m, Up(m, d, i).value, j) else None
    decreases i
  {
    if i > 0 && d in m {
      UpCompose(m, m[d], i - 1, j);
    }
  }

  /** In an acyclic map a depth is determined by its two endpoints. */
  lemma {:induction false} UpUnique(m: Edges, d: Id, i: nat, j: nat)
    requires Acyclic(m)
    requires Up(m, d, i).Some? && Up(m, d, i) == Up(m, d, j)
    ensures i == j
  {
    if i < j {
      UpCompose(m, d, i, j - i);
    } else if j < i {
      UpCompose(m, d, j, i - j);
    }
  }

  /** Two users above each other are the same user. */
  lemma {:induction false} AboveAntisymmetric(m: Edges, a: Id, i: nat, b: Id, j: nat)
    requires Acyclic(m)
    requires Up(m, a, i) == Some(b) && Up(m, b, j) == Some(a)
    ensures i == 0 && j == 0 && a == b
  {
    UpCompose(m, a, i, j);
    assert i + j == 0;
  }

  /** Managers of one user form a chain: the nearer one is below the farther one. */
  lemma {:induction false} UpBetween(m: Edges, d: Id, i: nat, j: nat)
    requires i <= j && Up(m, d, j).Some?
    ensures Up(m, d, i).Some? && Up(m, Up(m, d, i).value, j - i) == Up(m, d, j)
  {
    UpCompose(m, d, i, j - i);
  }

  // ---------------------------------------------------------------------------
  // The manager chain as a list
  // ---------------------------------------------------------------------------

  function ManagerOf(m: Edges, d: Id): Option<Id> {
    if d in m then Some(m[d]) else None
  }

  /** The walk upwards from `cur`, which stops at a root or at a repeated user. */
  function Walk(m: Edges, cur: Option<Id>, seen: set<Id>): seq<Id>
    requires cur.Some? ==> cur.value in m.Values
    decreases |m.Values - seen|
  {
    if cur.None? || cur.value in seen then []
    else
      assert m.Values - (seen + {cur.value}) < m.Values - seen by {
        assert cur.value in m.Values - seen;
      }
      SubsetSize(m.Values - (seen + {cur.value}), m.Values - seen);
      [cur.value] + Walk(m, ManagerOf(m, cur.value), seen + {cur.value})
  }

  lemma {:induction false} SubsetSize<T>(a: set<T>, b: set<T>)
    requires a < b
    ensures |a| < |b|
  {
    var x :| x in b && x !in a;
    SubsetSizeLe(a, b - {x});
  }

  lemma {:induction false} SubsetSizeLe<T>(a: set<T>, b: set<T>)
    requires a <= b
    ensures |a| <= |b|
    decreases b
  {
    if a != {} {
      var x :| x in a;
      SubsetSizeLe(a - {x}, b - {x});
    }
  }

  /** The managers of `d`, nearest first. */
  function Chain(m: Edges, d: Id): seq<Id> {
    Walk(m, ManagerOf(m, d), {})
  }

  /** What a walk is, cycles or not: successive managers, each listed once, up to
      a root or to the first user that was already seen. */
  lemma {:induction false} WalkIsUp(m: Edges, cur: Id, seen: set<Id>)
    requires cur in m.Values
    ensures var w := Walk(m, Some(cur), seen);
      && (forall i :: 0 <= i < |w| ==> Up(m, cur, i) == Some(w[i]) && w[i] !in seen)
      && NoDuplicates(w)
      && (Up(m, cur, |w|).Some? ==> Up(m, cur, |w|).value in seen || Up(m, cur, |w|).value in w)
    decreases |m.Values - seen|
  {
    var w := Walk(m, Some(cur), seen);
    if cur !in seen {
      assert cur in m.Values - seen;
      SubsetSize(m.Values - (seen + {cur}), m.Values - seen);
      if cur in m {
        var rest := Walk(m, Some(m[cur]), seen + {cur});
        WalkIsUp(m, m[cur], seen + {cur});
        assert w == [cur] + rest;
        forall i | 0 <= i < |w| ensures Up(m, cur, i) == Some(w[i]) && w[i] !in seen {
          if i > 0 { assert w[i] == rest[i - 1]; }
        }
        assert Up(m, cur, |w|) == Up(m, m[cur], |rest|);
        assert forall x :: x in rest ==> x in w;
      } else {
        assert w == [cur] + Walk(m, None, seen + {cur});
      }
    }
  }

  /** In an acyclic organization the chain of `d` is exactly its managers at
      depths 1, 2, ..., n, each once, and `d` has no (n+1)-th manager. */
  lemma {:induction false} ChainIsUp(m: Edges, d: Id)
    requires Acyclic(m)
    ensures var c := Chain(m, d);
      && (forall i :: 0 <= i < |c| ==> Up(m, d, i + 1) == Some(c[i]))
      && Up(m, d, |c| + 1).None?
      && NoDuplicates([d] + c)
  {
    if d in m {
      var c := Chain(m, d);
      WalkIsUp(m, m[d], {});
      forall i | 0 <= i < |c| ensures Up(m, d, i + 1) == Some(c[i]) && c[i] != d {
        assert Up(m, d, i + 1) == Up(m, m[d], i);
      }
      if Up(m, m[d], |c|).Some? {
        var i :| 0 <= i < |c| && c[i] == Up(m, m[d], |c|).value;
        UpUnique(m, m[d], i, |c|);
      }
    }
  }

  lemma {:induction false} UpEnds(m: Edges, d: Id, i: nat, j: nat)
    requires Up(m, d, i).None? && i <= j
    ensures Up(m, d, j).None?
  {
    UpCompose(m, d, i, j - i);
  }

  /** Depth k of the chain is the k-th hop, both ways. */
  lemma {:induction false} ChainHolds(m: Edges, d: Id, a: Id, k: nat)
    requires Acyclic(m)
    ensures 0 < k ==> (Up(m, d, k) == Some(a) <==> k <= |Chain(m, d)| && Chain(m, d)[k - 1] == a)
  {
    ChainIsUp(m, d);
    if 0 < k && Up(m, d, k).Some? && |Chain(m, d)| < k {
      UpEnds(m, d, |Chain(m, d)| + 1, k);
    }
  }

  /** `a` is in the chain of `d` exactly when it is above `d` and is not `d`. */
  lemma {:induction false} ChainMembers(m: Edges, d: Id, a: Id)
    requires Acyclic(m)
    ensures a in Chain(m, d) <==> a != d && Above(m, a, d)
  {
    ChainIsUp(m, d);
    if a in Chain(m, d) {
      var i :| 0 <= i < |Chain(m, d)| && Chain(m, d)[i] == a;
      assert Up(m, d, i + 1) == Some(a);
    } else if a != d && Above(m, a, d) {
      var k: nat :| Up(m, d, k) == Some(a);
      ChainHolds(m, d, a, k);
    }
  }

  // ---------------------------------------------------------------------------
  // Relationships
  // ---------------------------------------------------------------------------

  /** The relationship of `a` to `b` by the definition of the terms: a recursive
      walk over manager edges, no table involved. */
  function RelationshipOf(m: Edges, a: Id, b: Id): Relationship {
    if a == b then Self
    else if ManagerOf(m, b) == Some(a) then DirectManager
    else if a in Chain(m, b) then Ancestor
    else if a in m && b in m && m[a] == m[b] then Sibling
    else Unrelated
  }

  /** The five answers in terms of hops alone. */
  lemma {:induction false} RelationshipByHops(m: Edges, a: Id, b: Id)
    requires Acyclic(m)
    ensures RelationshipOf(m, a, b) == Self <==> Up(m, b, 0) == Some(a)
    ensures RelationshipOf(m, a, b) == DirectManager <==> Up(m, b, 1) == Some(a)
    ensures RelationshipOf(m, a, b) == Ancestor <==>
      Above(m, a, b) && Up(m, b, 0) != Some(a) && Up(m, b, 1) != Some(a)
    ensures RelationshipOf(m, a, b) == Sibling <==>
      a != b && !Above(m, a, b) && Up(m, a, 1).Some? && Up(m, a, 1) == Up(m, b, 1)
  {
    ChainMembers(m, b, a);
    assert forall d :: Up(m, d, 1) == ManagerOf(m, d) by {
      assert forall d :: d in m ==> Up(m, d, 1) == Up(m, m[d], 0);
    }
    if Above(m, a, b) {
      var k: nat :| Up(m, b, k) == Some(a);
      if a == b { UpUnique(m, b, 0, k); }
      if Up(m, b, 1) == Some(a) { UpUnique(m, b, 1, k); }
    }
  }

  lemma {:induction false} SiblingSymmetric(m: Edges, a: Id, b: Id)
    requires Acyclic(m)
    ensures RelationshipOf(m, a, b) == Sibling <==> RelationshipOf(m, b, a) == Sibling
  {
    if RelationshipOf(m, a, b) == Sibling {
      SiblingNotAbove(m, a, b);
    }
    if RelationshipOf(m, b, a) == Sibling {
      SiblingNotAbove(m, b, a);
    }
  }

  lemma {:induction false} SiblingNotAbove(m: Edges, a: Id, b: Id)
    requires Acyclic(m) && a != b && a in m && b in m && m[a] == m[b]
    ensures b !in Chain(m, a) && ManagerOf(m, a) != Some(b)
  {
    ChainMembers(m, a, b);
    assert Up(m, b, 1) == Some(m[b]) by { assert Up(m, m[b], 0) == Some(m[b]); }
    if Above(m, b, m[a]) {
      // b would be above its own manager.
      var k: nat :| Up(m, m[a], k) == Some(b);
      AboveAntisymmetric(m, m[a], k, b, 1);
    }
    assert Up(m, b, 0) == Some(b);
    forall k: nat ensures Up(m, a, k) != Some(b) {
      assert k > 0 ==> Up(m, a, k) == Up(m, m[a], k - 1);
    }
  }

  /** Authority runs one way: whoever manages `b`, directly or not, is unrelated
      from `b`'s side. */
  lemma {:induction false} AuthorityIsOneWay(m: Edges, a: Id, b: Id)
    requires Acyclic(m)
    requires RelationshipOf(m, a, b) in {DirectManager, Ancestor}
    ensures RelationshipOf(m, b, a) == Unrelated
  {
    ChainMembers(m, b, a);
    if ManagerOf(m, b) == Some(a) {
      assert Up(m, b, 1) == Some(a) by { assert Up(m, a, 0) == Some(a); }
    }
    var k: nat :| Up(m, b, k) == Some(a);
    if b in Chain(m, a) || ManagerOf(m, a) == Some(b) {
      ChainMembers(m, a, b);
      if ManagerOf(m, a) == Some(b) {
        assert Up(m, a, 1) == Some(b) by { assert Up(m, b, 0) == Some(b); }
      }
      var j: nat :| Up(m, a, j) == Some(b);
      AboveAntisymmetric(m, b, k, a, j);
    }
    if RelationshipOf(m, b, a) == Sibling {
      SiblingNotAbove(m, b, a);
    }
  }

  // ---------------------------------------------------------------------------
  // Moving one user under a new manager
  // ---------------------------------------------------------------------------

  /** Outside the subtree of `u` no walk meets the changed edge. */
  lemma {:induction false} UpOutside(m: Edges, u: Id, x: Id, d: Id, k: nat)
    requires !Above(m, u, d)
    ensures Up(m[u := x], d, k) == Up(m, d, k)
    decreases k
  {
    assert Up(m, d, 0) == Some(d);
    if k > 0 && d in m {
      forall i: nat ensures Up(m, m[d], i) != Some(u) {
        assert Up(m, d, i + 1) == Up(m, m[d], i);
      }
      UpOutside(m, u, x, m[d], k - 1);
    }
  }

  /** Inside the subtree a walk is unchanged up to `u` ... */
  lemma {:induction false} UpInside(m: Edges, u: Id, x: Id, d: Id, j: nat, k: nat)
    requires Acyclic(m) && Up(m, d, j) == Some(u) && k <= j
    ensures Up(m[u := x], d, k) == Up(m, d, k)
    decreases k
  {
    if k > 0 {
      assert d != u;
      UpInside(m, u, x, m[d], j - 1, k - 1);
    }
  }

  /** ... and then goes on with `x` and the managers of `x`. */
  lemma {:induction false} UpThrough(m: Edges, u: Id, x: Id, d: Id, j: nat, i: nat)
    requires Acyclic(m) && Up(m, d, j) == Some(u) && !Above(m, u, x)
    ensures Up(m[u := x], d, j + 1 + i) == Up(m, x, i)
  {
    var m' := m[u := x];
    UpInside(m, u, x, d, j, j);
    UpCompose(m', d, j, 1 + i);
    assert Up(m', u, 1 + i) == Up(m', x, i);
    UpOutside(m, u, x, x, i);
  }

  /** Reparenting keeps the organization acyclic exactly when the new manager is
      outside the subtree being moved. */
  lemma {:induction false} ReparentAcyclic(m: Edges, u: Id, x: Id)
    requires Acyclic(m)
    ensures Acyclic(m[u := x]) <==> !Above(m, u, x)
  {
    var m' := m[u := x];
    if Above(m, u, x) {
      var k: nat :| Up(m, x, k) == Some(u);
      UpInside(m, u, x, x, k, k);
      assert Up(m', u, k + 1) == Some(u);
    } else {
      forall d, k: nat | 0 < k ensures Up(m', d, k) != Some(d) {
        if Above(m, u, d) {
          var j: nat :| Up(m, d, j) == Some(u);
          if k <= j {
            UpInside(m, u, x, d, j, k);
          } else {
            UpThrough(m, u, x, d, j, k - j - 1);
            if Up(m, x, k - j - 1) == Some(d) {
              UpCompose(m, x, k - j - 1, j);
            }
          }
        } else {
          UpOutside(m, u, x, d, k);
        }
      }
    }
  }
}
