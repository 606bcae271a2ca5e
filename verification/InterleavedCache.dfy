/** The cache under interleaving.  A read is three separate steps: look in the
    cache, load from the database, fill and return.  A write is two: commit, then
    invalidate.  Any steps of any readers and writers may come in between.  Entries
    are stored under the joined strings, so reads of two keys may meet in one entry. */
module InterleavedCache {
  import opened AccessSpec
  import opened CacheCoherence
  import opened CacheKeys
  import opened CacheService
  import opened Tables
  import opened Writes

  datatype Reader = Missed(key: Key) | Loaded(key: Key, fact: Fact)

  datatype State = State(
    now: int,
    db: Store,
    cache: map<string, Entry<Fact>>,
    readers: map<nat, Reader>,   // reads between their first and last step
    pending: map<nat, Write>)    // writes committed but not yet invalidated

  datatype Event =
    | Hit(reader: nat, key: Key)
    | Miss(reader: nat, key: Key)
    | Load(reader: nat)
    | Fill(reader: nat)
    | Commit(writer: nat, write: Write)
    | Invalidate(writer: nat)
    | Tick(ms: nat)

  predicate Live(c: State, k: Key) {
    Lookup(c.cache, Render(k), c.now).Some?
  }

  predicate Enabled(c: State, e: Event) {
    match e
    case Hit(r, k) => r !in c.readers && Live(c, k)
    case Miss(r, k) => r !in c.readers && !Live(c, k)
    case Load(r) => r in c.readers && c.readers[r].Missed?
    case Fill(r) => r in c.readers && c.readers[r].Loaded?
    case Commit(w, op) => w !in c.pending && Accepted(c.db, op)
    case Invalidate(w) => w in c.pending
    case Tick(_) => true
  }

  function Next(c: State, e: Event): State
    requires Enabled(c, e)
  {
    match e
    case Hit(_, _) => c
    case Miss(r, k) => c.(cache := AfterLookup(c.cache, Render(k), c.now), readers := c.readers[r := Missed(k)])
    case Load(r) =>
      var k := c.readers[r].key;
      c.(readers := c.readers[r := Loaded(k, Truth(c.db, k))])
    case Fill(r) =>
      var loaded := c.readers[r];
      c.(cache := c.cache[Render(loaded.key) := Entry(loaded.fact, c.now + TTL_MS)], readers := c.readers - {r})
    case Commit(w, op) => c.(db := Applied(c.db, op), pending := c.pending[w := op])
    case Invalidate(w) =>
      c.(cache := map x | x in c.cache && !Removes(c.pending[w], x) :: c.cache[x],
         pending := c.pending - {w})
    case Tick(ms) => c.(now := c.now + ms)
  }

  datatype Answer = Nothing | Served(key: Key, fact: Fact)

  /** What a step hands back to a caller of the cache. */
  function AnswerOf(c: State, e: Event): Answer
    requires Enabled(c, e)
  {
    match e
    case Hit(_, k) => Served(k, Lookup(c.cache, Render(k), c.now).value)
    case Fill(r) => Served(c.readers[r].key, c.readers[r].fact)
    case _ => Nothing
  }

  predicate Initial(c: State) {
    c.cache == map[] && c.readers == map[] && c.pending == map[]
  }

  predicate ValidRun(c: State, es: seq<Event>)
    decreases |es|, 0
  {
    es == [] || (ValidRun(c, es[..|es| - 1]) && Enabled(After(c, es[..|es| - 1]), es[|es| - 1]))
  }

  /** The state after all the events. */
  function After(c: State, es: seq<Event>): State
    requires ValidRun(c, es)
    decreases |es|, 1
  {
    if es == [] then c
    else Next(After(c, es[..|es| - 1]), es[|es| - 1])
  }

  lemma {:induction false} ValidPrefix(c: State, es: seq<Event>, i: nat)
    requires ValidRun(c, es) && i <= |es|
    ensures ValidRun(c, es[..i])
    decreases |es|
  {
    if i < |es| {
      ValidPrefix(c, es[..|es| - 1], i);
      assert es[..|es| - 1][..i] == es[..i];
    } else {
      assert es[..i] == es;
    }
  }

  lemma {:induction false} EnabledAt(c: State, es: seq<Event>, i: nat)
    requires ValidRun(c, es) && i < |es|
    ensures ValidRun(c, es[..i]) && Enabled(After(c, es[..i]), es[i])
    ensures ValidRun(c, es[..i + 1]) && After(c, es[..i + 1]) == Next(After(c, es[..i]), es[i])
  {
    ValidPrefix(c, es, i);
    ValidPrefix(c, es, i + 1);
    assert es[..i + 1][..i] == es[..i];
  }

  /** The state before event `i`. */
  function At(c: State, es: seq<Event>, i: nat): State
    requires ValidRun(c, es) && i <= |es|
  {
    ValidPrefix(c, es, i);
    After(c, es[..i])
  }

  lemma {:induction false} AtNext(c: State, es: seq<Event>, i: nat)
    requires ValidRun(c, es) && i < |es|
    ensures Enabled(At(c, es, i), es[i])
    ensures At(c, es, i + 1) == Next(At(c, es, i), es[i])
  {
    EnabledAt(c, es, i);
  }

  // ---------------------------------------------------------------------------
  // Bounded staleness
  // ---------------------------------------------------------------------------

  /** Event `j` loaded `fact` for `key` on behalf of reader `r`, and it was true. */
  ghost predicate LoadedAt(c: State, es: seq<Event>, j: nat, r: nat, key: Key, fact: Fact)
    requires ValidRun(c, es)
  {
    j < |es| && es[j] == Load(r) && r in At(c, es, j).readers && At(c, es, j).readers[r] == Missed(key)
    && fact == Truth(At(c, es, j).db, key)
  }

  /** At event `i` that load is still in flight: the reader has filled nothing since. */
  ghost predicate InFlight(c: State, es: seq<Event>, j: nat, i: nat, r: nat, key: Key, fact: Fact)
    requires ValidRun(c, es)
  {
    && j < i <= |es|
    && LoadedAt(c, es, j, r, key, fact)
    && (forall m :: j < m < i ==> es[m] != Fill(r))
  }

  /** Event `l` put that load into the cache. */
  ghost predicate FilledAt(c: State, es: seq<Event>, j: nat, l: nat, key: Key, fact: Fact)
    requires ValidRun(c, es)
  {
    l < |es| && es[l].Fill? && InFlight(c, es, j, l, es[l].reader, key, fact)
  }

  ghost predicate ReadersJustified(c: State, es: seq<Event>, i: nat)
    requires ValidRun(c, es) && i <= |es|
  {
    forall r :: r in At(c, es, i).readers && At(c, es, i).readers[r].Loaded? ==>
      exists j: nat :: InFlight(c, es, j, i, r, At(c, es, i).readers[r].key, At(c, es, i).readers[r].fact)
  }

  /** The entry under `x` was loaded for some key of that string. */
  ghost predicate EntryJustified(c: State, es: seq<Event>, i: nat, x: string)
    requires ValidRun(c, es) && i <= |es| && x in At(c, es, i).cache
  {
    exists j: nat, l: nat, k: Key :: l < i && Render(k) == x
      && FilledAt(c, es, j, l, k, At(c, es, i).cache[x].value)
      && At(c, es, i).cache[x].expiresAt == At(c, es, l).now + TTL_MS
  }

  ghost predicate EntriesJustified(c: State, es: seq<Event>, i: nat)
    requires ValidRun(c, es) && i <= |es|
  {
    forall x :: x in At(c, es, i).cache ==> EntryJustified(c, es, i, x)
  }

  lemma {:induction false} ReadersStay(c: State, es: seq<Event>, i: nat)
    requires ValidRun(c, es) && i < |es| && ReadersJustified(c, es, i)
    ensures ReadersJustified(c, es, i + 1)
  {
    hide Truth;
    AtNext(c, es, i);
    var next := i + 1;
    var a, b := At(c, es, i), At(c, es, next);
    forall r | r in b.readers && b.readers[r].Loaded?
      ensures exists j: nat :: InFlight(c, es, j, next, r, b.readers[r].key, b.readers[r].fact)
    {
      if es[i] == Load(r) {
        assert InFlight(c, es, i, next, r, b.readers[r].key, b.readers[r].fact);
      } else {
        assert r in a.readers && a.readers[r] == b.readers[r] && es[i] != Fill(r);
        var j: nat :| InFlight(c, es, j, i, r, a.readers[r].key, a.readers[r].fact);
        assert InFlight(c, es, j, next, r, a.readers[r].key, a.readers[r].fact);
      }
    }
  }

  lemma {:induction false} EntriesStay(c: State, es: seq<Event>, i: nat)
    requires ValidRun(c, es) && i < |es| && ReadersJustified(c, es, i) && EntriesJustified(c, es, i)
    ensures EntriesJustified(c, es, i + 1)
  {
    hide Truth, Render, Removes, At, ValidRun, EntryJustified, InFlight;
    AtNext(c, es, i);
    var a, b := At(c, es, i), At(c, es, i + 1);
    forall x | x in b.cache ensures EntryJustified(c, es, i + 1, x) {
      if es[i].Fill? && Render(a.readers[es[i].reader].key) == x {
        NewEntry(c, es, i);
      } else {
        assert x in a.cache && a.cache[x] == b.cache[x];
        OldEntry(c, es, i, x);
      }
    }
  }

  lemma {:induction false} NewEntry(c: State, es: seq<Event>, i: nat)
    requires ValidRun(c, es) && i < |es| && es[i].Fill? && ReadersJustified(c, es, i)
    requires Enabled(At(c, es, i), es[i]) && At(c, es, i + 1) == Next(At(c, es, i), es[i])
    ensures EntryJustified(c, es, i + 1, Render(At(c, es, i).readers[es[i].reader].key))
  {
    hide Truth, Render, At, ValidRun;
    var a, r := At(c, es, i), es[i].reader;
    var k := a.readers[r].key;
    var j: nat :| InFlight(c, es, j, i, r, a.readers[r].key, a.readers[r].fact);
    assert FilledAt(c, es, j, i, k, At(c, es, i + 1).cache[Render(k)].value);
  }

  lemma {:induction false} OldEntry(c: State, es: seq<Event>, i: nat, x: string)
    requires ValidRun(c, es) && i < |es|
    requires x in At(c, es, i).cache && EntryJustified(c, es, i, x)
    requires x in At(c, es, i + 1).cache && At(c, es, i + 1).cache[x] == At(c, es, i).cache[x]
    ensures EntryJustified(c, es, i + 1, x)
  {
  }

  lemma {:induction false} AllJustified(c: State, es: seq<Event>, i: nat)
    requires Initial(c) && ValidRun(c, es) && i <= |es|
    ensures ReadersJustified(c, es, i) && EntriesJustified(c, es, i)
    decreases i
  {
    if i > 0 {
      AllJustified(c, es, i - 1);
      ReadersStay(c, es, i - 1);
      EntriesStay(c, es, i - 1);
    }
  }

  /** Event `i` hands a value to a caller. */
  ghost predicate ServesAt(c: State, es: seq<Event>, i: nat) {
    && ValidRun(c, es) && i < |es|
    && Enabled(At(c, es, i), es[i])
    && AnswerOf(At(c, es, i), es[i]).Served?
  }

  function AnswerAt(c: State, es: seq<Event>, i: nat): (a: Answer)
    requires ServesAt(c, es, i)
    ensures a.Served?
  {
    AnswerOf(At(c, es, i), es[i])
  }

  /** The value served was loaded for `k`, when it was true, and is served less than one
      lifetime after the fill that followed the load. */
  ghost predicate ServedFor(c: State, es: seq<Event>, i: nat, k: Key)
    requires ServesAt(c, es, i)
  {
    exists j: nat, l: nat :: l <= i && FilledAt(c, es, j, l, k, AnswerAt(c, es, i).fact)
      && At(c, es, i).now < At(c, es, l).now + TTL_MS
  }

  lemma {:induction false} HitServed(c: State, es: seq<Event>, i: nat)
    requires ServesAt(c, es, i) && es[i].Hit? && EntriesJustified(c, es, i)
    ensures exists k :: Render(k) == Render(AnswerAt(c, es, i).key) && ServedFor(c, es, i, k)
  {
    hide Truth, Render, FilledAt, At, ValidRun;
    var s, x := At(c, es, i), Render(es[i].key);
    assert EntryJustified(c, es, i, x);
    var j: nat, l: nat, k: Key :| l < i && Render(k) == x && FilledAt(c, es, j, l, k, s.cache[x].value)
      && s.cache[x].expiresAt == At(c, es, l).now + TTL_MS;
    assert FilledAt(c, es, j, l, k, AnswerAt(c, es, i).fact);
    assert ServedFor(c, es, i, k);
  }

  lemma {:induction false} FillServed(c: State, es: seq<Event>, i: nat)
    requires ServesAt(c, es, i) && es[i].Fill? && ReadersJustified(c, es, i)
    ensures ServedFor(c, es, i, AnswerAt(c, es, i).key)
  {
    hide Truth, Render, InFlight, At, ValidRun;
    var s, r := At(c, es, i), es[i].reader;
    var j: nat :| InFlight(c, es, j, i, r, s.readers[r].key, s.readers[r].fact);
    assert FilledAt(c, es, j, i, s.readers[r].key, AnswerAt(c, es, i).fact);
  }

  /** In every interleaving a value served was true of a key of the same string when it
      was loaded, and is served less than one lifetime after the fill that followed. */
  lemma {:induction false} BoundedStaleness(c: State, es: seq<Event>, i: nat)
    requires Initial(c) && ServesAt(c, es, i)
    ensures exists k :: Render(k) == Render(AnswerAt(c, es, i).key) && ServedFor(c, es, i, k)
  {
    hide Truth, Render, At, ValidRun, ReadersJustified, EntriesJustified, ServedFor;
    AllJustified(c, es, i);
    if es[i].Hit? {
      HitServed(c, es, i);
    } else {
      FillServed(c, es, i);
    }
  }

  // ---------------------------------------------------------------------------
  // Whose value is served
  // ---------------------------------------------------------------------------

  /** Every read is of one of the keys. */
  ghost predicate ReadsIn(es: seq<Event>, ks: set<Key>) {
    forall e :: e in es && (e.Hit? || e.Miss?) ==> e.key in ks
  }

  ghost predicate ReadersIn(c: State, ks: set<Key>) {
    forall r :: r in c.readers ==> c.readers[r].key in ks
  }

  lemma {:induction false} ReadersStayIn(c: State, es: seq<Event>, i: nat, ks: set<Key>)
    requires ValidRun(c, es) && i <= |es| && ReadersIn(c, ks) && ReadsIn(es, ks)
    ensures ReadersIn(At(c, es, i), ks)
    decreases i
  {
    hide Truth, Render;
    if i > 0 {
      ReadersStayIn(c, es, i - 1, ks);
      AtNext(c, es, i - 1);
    }
  }

  /** However reads of the keys are interleaved with each other and with writes, each is
      served a value loaded for its own key, within one lifetime of the fill. */
  ghost predicate EachServedItsOwn(ks: set<Key>) {
    forall c, es, i: nat :: Initial(c) && ServesAt(c, es, i) && ReadsIn(es, ks) ==>
      ServedFor(c, es, i, AnswerAt(c, es, i).key)
  }

  lemma {:induction false} OwnServed(c: State, es: seq<Event>, i: nat, ks: set<Key>)
    requires Apart(ks) && Initial(c) && ServesAt(c, es, i) && ReadsIn(es, ks)
    ensures ServedFor(c, es, i, AnswerAt(c, es, i).key)
  {
    hide Truth, Render, FilledAt;
    BoundedStaleness(c, es, i);
    var k :| Render(k) == Render(AnswerAt(c, es, i).key) && ServedFor(c, es, i, k);
    var j: nat, l: nat :| l <= i && FilledAt(c, es, j, l, k, AnswerAt(c, es, i).fact);
    FilledFrom(c, es, j, l, k, AnswerAt(c, es, i).fact);
    ReadersStayIn(c, es, j, ks);
    ReadersStayIn(c, es, i, ks);
    assert k in ks && AnswerAt(c, es, i).key in ks;
  }

  lemma {:induction false} FilledFrom(c: State, es: seq<Event>, j: nat, l: nat, k: Key, fact: Fact)
    requires ValidRun(c, es) && FilledAt(c, es, j, l, k, fact)
    ensures j < |es| && fact == Truth(At(c, es, j).db, k)
    ensures exists r :: r in At(c, es, j).readers && At(c, es, j).readers[r].key == k
  {
    hide Truth;
    assert es[l].reader in At(c, es, j).readers;
  }

  /** The bound holds key by key exactly when no two of the keys share a string. */
  lemma {:induction false} BoundedStalenessExactly(ks: set<Key>)
    ensures EachServedItsOwn(ks) <==> Apart(ks)
  {
    hide Truth, Render, ServesAt, ServedFor, AnswerAt;
    if Apart(ks) {
      forall c, es, i: nat | Initial(c) && ServesAt(c, es, i) && ReadsIn(es, ks)
        ensures ServedFor(c, es, i, AnswerAt(c, es, i).key)
      {
        OwnServed(c, es, i, ks);
      }
    } else {
      var j, k :| j in ks && k in ks && Render(j) == Render(k) && j != k;
      var s := ToldApart(j, k);
      RivalServed(s, j, k);
    }
  }

  /** A read of one key, then a read of another that has its string. */
  lemma {:induction false} RivalRun(s: Store, j: Key, k: Key)
    requires Render(j) == Render(k)
    ensures var c := State(0, s, map[], map[], map[]);
      var es := [Miss(0, j), Load(0), Fill(0), Hit(1, k)];
      && ServesAt(c, es, 3)
      && AnswerAt(c, es, 3) == Served(k, Truth(s, j))
  {
    hide Truth, Render, ValidRun, After;
    var c := State(0, s, map[], map[], map[]);
    EmptyRun(c);
    assert [] + [Miss(0, j)] == [Miss(0, j)];
    Extend(c, [], Miss(0, j));
    assert [Miss(0, j)] + [Load(0)] == [Miss(0, j), Load(0)];
    Extend(c, [Miss(0, j)], Load(0));
    var es := [Miss(0, j), Load(0), Fill(0)];
    assert [Miss(0, j), Load(0)] + [Fill(0)] == es;
    Extend(c, [Miss(0, j), Load(0)], Fill(0));
    Extend(c, es, Hit(1, k));
    assert es + [Hit(1, k)] == [Miss(0, j), Load(0), Fill(0), Hit(1, k)];
    assert (es + [Hit(1, k)])[..3] == es;
  }

  /** It is served what was loaded for the first, and never for itself. */
  lemma {:induction false} RivalServed(s: Store, j: Key, k: Key)
    requires Render(j) == Render(k) && Truth(s, j) != Truth(s, k)
    ensures var c := State(0, s, map[], map[], map[]);
      var es := [Miss(0, j), Load(0), Fill(0), Hit(1, k)];
      && Initial(c) && ServesAt(c, es, 3) && ReadsIn(es, {j, k})
      && AnswerAt(c, es, 3) == Served(k, Truth(s, j))
      && !ServedFor(c, es, 3, k)
  {
    hide Truth, Render, ValidRun, After, FilledAt, AnswerAt;
    var c := State(0, s, map[], map[], map[]);
    var es := [Miss(0, j), Load(0), Fill(0), Hit(1, k)];
    RivalRun(s, j, k);
    if ServedFor(c, es, 3, k) {
      var j': nat, l: nat :| l <= 3 && FilledAt(c, es, j', l, k, AnswerAt(c, es, 3).fact);
      FilledFrom(c, es, j', l, k, AnswerAt(c, es, 3).fact);
      SameDatabase(c, es, j');
    }
  }

  lemma {:induction false} SameDatabase(c: State, es: seq<Event>, i: nat)
    requires ValidRun(c, es) && i <= |es| && (forall e :: e in es ==> !e.Commit?)
    ensures At(c, es, i).db == c.db
    decreases i
  {
    hide Truth, Render;
    if i > 0 {
      SameDatabase(c, es, i - 1);
      AtNext(c, es, i - 1);
    }
  }

  // ---------------------------------------------------------------------------
  // Stale values are partial
  // ---------------------------------------------------------------------------

  /** All that `f` says, `g` says too. */
  predicate Partial(f: Fact, g: Fact) {
    match (f, g)
    case (Names(a), Names(b)) => a <= b
    case (Policies(a), Policies(b)) => a <= b
    case _ => false
  }

  lemma {:induction false} WriteGrows(s: Store, w: Write, k: Key)
    ensures Partial(Truth(s, k), Truth(Applied(s, w), k))
  {
    hide NamesOf, Applicable, Applied;
    match k {
      case PermissionsOf(t, u) => WritesOnlyAdd(s, w, t, u);
      case PoliciesFor(t, a, r) =>
        if !Accepted(s, w) {
          RefusedIs(s, w);
        } else if w.AddPolicy? {
          AddPolicyEffect(s, w.policy, t, a, r);
        } else {
          OtherKind(s, w, k);
        }
    }
  }

  lemma {:induction false} RefusedIs(s: Store, w: Write)
    ensures !Accepted(s, w) ==> Applied(s, w) == s
  {
  }

  lemma {:induction false} TruthGrows(c: State, es: seq<Event>, j: nat, i: nat, k: Key)
    requires ValidRun(c, es) && j <= i <= |es|
    ensures Partial(Truth(At(c, es, j).db, k), Truth(At(c, es, i).db, k))
    decreases i
  {
    hide NamesOf, Applicable, Applied, Render, At, ValidRun;
    if j < i {
      TruthGrows(c, es, j, i - 1, k);
      AtNext(c, es, i - 1);
      if es[i - 1].Commit? { WriteGrows(At(c, es, i - 1).db, es[i - 1].write, k); }
    }
  }

  /** A value loaded for a key is part of what the database says of it when it is
      served. */
  lemma {:induction false} ServedIsPartial(c: State, es: seq<Event>, i: nat, k: Key)
    requires ServesAt(c, es, i) && ServedFor(c, es, i, k)
    ensures Partial(AnswerAt(c, es, i).fact, Truth(At(c, es, i).db, k))
  {
    hide Truth, Partial, FilledAt;
    var j: nat, l: nat :| l <= i && FilledAt(c, es, j, l, k, AnswerAt(c, es, i).fact);
    FilledFrom(c, es, j, l, k, AnswerAt(c, es, i).fact);
    assert j <= l by { FilledAfter(c, es, j, l, k, AnswerAt(c, es, i).fact); }
    TruthGrows(c, es, j, i, k);
  }

  lemma {:induction false} FilledAfter(c: State, es: seq<Event>, j: nat, l: nat, k: Key, fact: Fact)
    requires ValidRun(c, es) && FilledAt(c, es, j, l, k, fact)
    ensures j < l
  {
  }

  /** Stale reads never grant too much: in every interleaving of reads of keys that are
      apart, permission names that are served grant an action only if the user's current
      names do, and policies that are served are all in force. */
  lemma {:induction false} NeverOvergrants(c: State, es: seq<Event>, i: nat, ks: set<Key>)
    requires Apart(ks) && Initial(c) && ServesAt(c, es, i) && ReadsIn(es, ks)
    ensures var a, s := AnswerAt(c, es, i), At(c, es, i).db;
      match a.key
      case PermissionsOf(t, u) => a.fact.Names? && forall action, kind ::
        Grants(a.fact.names, action, kind) ==> Grants(NamesOf(s, t, u), action, kind)
      case PoliciesFor(t, action, kind) => a.fact.Policies? && a.fact.policies <= Applicable(s, t, action, kind)
  {
    hide ServesAt, ServedFor, AnswerAt, NamesOf, Applicable, Render;
    OwnServed(c, es, i, ks);
    ServedIsPartial(c, es, i, AnswerAt(c, es, i).key);
  }

  // ---------------------------------------------------------------------------
  // Freshness after an invalidation
  // ---------------------------------------------------------------------------

  /** A read of `k` has loaded a value that is no longer true and not returned yet. */
  ghost predicate StaleInFlight(c: State, k: Key) {
    exists r :: r in c.readers && c.readers[r].Loaded? && c.readers[r].key == k
      && c.readers[r].fact != Truth(c.db, k)
  }

  ghost predicate Fresh(c: State, k: Key) {
    && !StaleInFlight(c, k)
    && (Render(k) in c.cache ==> c.cache[Render(k)].value == Truth(c.db, k))
  }

  /** The step commits a write to `k`: one that changes what the database says. */
  predicate Changes(c: State, e: Event, k: Key) {
    e.Commit? && Truth(Applied(c.db, e.write), k) != Truth(c.db, k)
  }

  /** The step stores the value of another key under the string of `k`. */
  predicate Intrudes(c: State, e: Event, k: Key)
    requires Enabled(c, e)
  {
    e.Fill? && c.readers[e.reader].key != k && Render(c.readers[e.reader].key) == Render(k)
  }

  /** None of the events is a write to `k`, in the state it meets. */
  predicate Quiet(c: State, es: seq<Event>, k: Key)
    requires ValidRun(c, es)
    decreases |es|
  {
    es == [] || (Quiet(c, es[..|es| - 1], k) && !Changes(After(c, es[..|es| - 1]), es[|es| - 1], k))
  }

  /** None of the events fills the entry of `k` for another key. */
  predicate Undisturbed(c: State, es: seq<Event>, k: Key)
    requires ValidRun(c, es)
    decreases |es|
  {
    es == [] || (Undisturbed(c, es[..|es| - 1], k) && !Intrudes(After(c, es[..|es| - 1]), es[|es| - 1], k))
  }

  /** Freshness of a key survives every step but a write to it and a fill of its entry
      for another key. */
  lemma {:induction false} FreshStays(c: State, e: Event, k: Key)
    requires Enabled(c, e) && Fresh(c, k) && !Changes(c, e, k) && !Intrudes(c, e, k)
    ensures Fresh(Next(c, e), k)
  {
    hide Truth, Render, Removes, Applied, Accepted;
    var c' := Next(c, e);
    if e.Commit? {
      assert c'.readers == c.readers && c'.cache == c.cache;
    } else {
      assert c'.db == c.db;
    }
    forall r | r in c'.readers && c'.readers[r].Loaded? && c'.readers[r].key == k
      ensures c'.readers[r].fact == Truth(c'.db, k)
    {
      if e != Load(r) { assert r in c.readers && c.readers[r] == c'.readers[r]; }
    }
  }

  lemma {:induction false} FreshRun(c: State, es: seq<Event>, k: Key)
    requires ValidRun(c, es) && Fresh(c, k) && Quiet(c, es, k) && Undisturbed(c, es, k)
    ensures Fresh(After(c, es), k)
    decreases |es|
  {
    hide Fresh, Changes, Intrudes, Enabled;
    if es != [] {
      var n := |es| - 1;
      FreshRun(c, es[..n], k);
      FreshStays(After(c, es[..n]), es[n], k);
    }
  }

  /** After events without a further write to `k`, the step `e` serves `k`. */
  ghost predicate Serves(c: State, es: seq<Event>, e: Event, k: Key) {
    && ValidRun(c, es)
    && Quiet(c, es, k)
    && Enabled(After(c, es), e)
    && AnswerOf(After(c, es), e).Served?
    && AnswerOf(After(c, es), e).key == k
  }

  /** ... and what it serves is what the database says then. */
  ghost predicate Current(c: State, es: seq<Event>, e: Event, k: Key)
    requires Serves(c, es, e, k)
  {
    AnswerOf(After(c, es), e).fact == Truth(After(c, es).db, k)
  }

  /** Every continuation without a further write to `k`, and without a fill of its entry
      for another key, serves `k`'s current value. */
  ghost predicate ServesTruth(c: State, k: Key) {
    forall es, e :: Serves(c, es, e, k) && Undisturbed(c, es, k) ==> Current(c, es, e, k)
  }

  /** Every continuation whose reads are of the given keys, without a further write to
      `k`, serves `k`'s current value. */
  ghost predicate ServesTruthAmong(c: State, k: Key, ks: set<Key>) {
    forall es, e :: Serves(c, es, e, k) && ReadsIn(es, ks) ==> Current(c, es, e, k)
  }

  lemma {:induction false} FreshServes(c: State, es: seq<Event>, e: Event, k: Key)
    requires Fresh(c, k) && Serves(c, es, e, k) && Undisturbed(c, es, k)
    ensures Current(c, es, e, k)
  {
    hide Truth, Render, Quiet, Undisturbed, ValidRun, After;
    FreshRun(c, es, k);
  }

  lemma {:induction false} StaleServes(c: State, k: Key, ks: set<Key>)
    requires StaleInFlight(c, k)
    ensures !ServesTruth(c, k) && !ServesTruthAmong(c, k, ks)
  {
    hide Truth, Render;
    var r :| r in c.readers && c.readers[r].Loaded? && c.readers[r].key == k && c.readers[r].fact != Truth(c.db, k);
    assert ValidRun(c, []) && After(c, []) == c && Undisturbed(c, [], k) && ReadsIn([], ks);
    assert Serves(c, [], Fill(r), k) && !Current(c, [], Fill(r), k);
  }

  lemma {:induction false} InvalidatedIs(c: State, w: nat, k: Key)
    requires w in c.pending && Removes(c.pending[w], Render(k))
    ensures StaleInFlight(Next(c, Invalidate(w)), k) <==> StaleInFlight(c, k)
    ensures !StaleInFlight(c, k) ==> Fresh(Next(c, Invalidate(w)), k)
  {
    hide Truth, Render, Removes;
  }

  /** After an invalidation of `k`, its reads return the current truth until the next
      write or the next fill for another key of its string exactly when no read of `k` is
      in flight with an overtaken value. */
  lemma {:induction false} FreshAfterInvalidationExactly(c: State, w: nat, k: Key)
    requires w in c.pending && Removes(c.pending[w], Render(k))
    ensures ServesTruth(Next(c, Invalidate(w)), k) <==> !StaleInFlight(c, k)
  {
    hide Truth, Render, Removes, Quiet, Undisturbed, Fresh, StaleInFlight, ValidRun, After, Current;
    var c' := Next(c, Invalidate(w));
    InvalidatedIs(c, w, k);
    if StaleInFlight(c, k) {
      StaleServes(c', k, {});
    } else {
      forall es, e | Serves(c', es, e, k) && Undisturbed(c', es, k)
        ensures Current(c', es, e, k)
      {
        FreshServes(c', es, e, k);
      }
    }
  }

  /** Reads of keys that are apart never disturb each other. */
  lemma {:induction false} ApartUndisturbed(c: State, es: seq<Event>, k: Key, ks: set<Key>)
    requires Apart(ks) && k in ks && ValidRun(c, es) && ReadersIn(c, ks) && ReadsIn(es, ks)
    ensures Undisturbed(c, es, k)
    decreases |es|
  {
    hide Truth, Render;
    if es != [] {
      var n := |es| - 1;
      ApartUndisturbed(c, es[..n], k, ks);
      ReadersStayIn(c, es, n, ks);
    }
  }

  /** Among reads of keys that are apart, nothing but a write ends the freshness. */
  lemma {:induction false} FreshAmongApartExactly(c: State, w: nat, k: Key, ks: set<Key>)
    requires Apart(ks) && k in ks && ReadersIn(c, ks)
    requires w in c.pending && Removes(c.pending[w], Render(k))
    ensures ServesTruthAmong(Next(c, Invalidate(w)), k, ks) <==> !StaleInFlight(c, k)
  {
    hide Truth, Render, Removes, Quiet, Undisturbed, Fresh, StaleInFlight, ValidRun, After, Current;
    var c' := Next(c, Invalidate(w));
    InvalidatedIs(c, w, k);
    if StaleInFlight(c, k) {
      StaleServes(c', k, ks);
    } else {
      forall es, e | Serves(c', es, e, k) && ReadsIn(es, ks)
        ensures Current(c', es, e, k)
      {
        ApartUndisturbed(c', es, k, ks);
        FreshServes(c', es, e, k);
      }
    }
  }

  /** In particular: when no read of `k` is between its load and its return at the
      invalidation the code meant for it. */
  lemma {:induction false} QuietInvalidation(c: State, w: nat, k: Key, ks: set<Key>)
    requires Apart(ks) && k in ks && ReadersIn(c, ks)
    requires w in c.pending && Invalidates(c.pending[w], k)
    requires forall r :: r in c.readers && c.readers[r].Loaded? ==> c.readers[r].key != k
    ensures ServesTruthAmong(Next(c, Invalidate(w)), k, ks)
  {
    InvalidatedRemoved(c.pending[w], k);
    FreshAmongApartExactly(c, w, k, ks);
  }

  lemma {:induction false} Extend(c: State, es: seq<Event>, e: Event)
    requires ValidRun(c, es) && Enabled(After(c, es), e)
    ensures ValidRun(c, es + [e]) && After(c, es + [e]) == Next(After(c, es), e)
  {
  }

  /** Such a read is possible: one load overtaken by any write that changes its key,
      and a later read is served the value from before the write. */
  lemma {:induction false} OvertakenLoadServesStale(s: Store, w: Write, k: Key)
    requires Accepted(s, w)
    requires Truth(Applied(s, w), k) != Truth(s, k)
    ensures var c := State(0, s, map[], map[], map[]);
      var es := [Miss(0, k), Load(0), Commit(0, w), Invalidate(0), Fill(0)];
      && Initial(c) && ValidRun(c, es) && Enabled(After(c, es), Hit(1, k))
      && AnswerOf(After(c, es), Hit(1, k)) == Served(k, Truth(s, k))
      && Truth(After(c, es).db, k) != Truth(s, k)
  {
    hide Truth, Applied, Accepted, Render, Removes, ValidRun, After;
    var c := State(0, s, map[], map[], map[]);
    assert ValidRun(c, []) && After(c, []) == c by { EmptyRun(c); }
    Extend(c, [], Miss(0, k));
    assert [] + [Miss(0, k)] == [Miss(0, k)];
    Extend(c, [Miss(0, k)], Load(0));
    assert [Miss(0, k)] + [Load(0)] == [Miss(0, k), Load(0)];
    Extend(c, [Miss(0, k), Load(0)], Commit(0, w));
    assert [Miss(0, k), Load(0)] + [Commit(0, w)] == [Miss(0, k), Load(0), Commit(0, w)];
    Extend(c, [Miss(0, k), Load(0), Commit(0, w)], Invalidate(0));
    assert [Miss(0, k), Load(0), Commit(0, w)] + [Invalidate(0)]
        == [Miss(0, k), Load(0), Commit(0, w), Invalidate(0)];
    Extend(c, [Miss(0, k), Load(0), Commit(0, w), Invalidate(0)], Fill(0));
    assert [Miss(0, k), Load(0), Commit(0, w), Invalidate(0)] + [Fill(0)]
        == [Miss(0, k), Load(0), Commit(0, w), Invalidate(0), Fill(0)];
  }

  lemma {:induction false} EmptyRun(c: State)
    ensures ValidRun(c, []) && After(c, []) == c
  {
  }
}
