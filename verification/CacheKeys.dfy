/** The string keys of the cache, and what they can and cannot tell apart. */
module CacheKeys {
  import opened Domain

  const TTL_MS := 30_000

  function PermissionsKey(t: Id, u: Id): string {
    "perms:" + t + ":" + u
  }

  function PermissionsPrefix(t: Id): string {
    "perms:" + t + ":"
  }

  function PoliciesKey(t: Id, action: string, resourceType: string): string {
    "pol:" + t + ":" + action + ":" + resourceType
  }

  function PoliciesPrefix(t: Id): string {
    "pol:" + t + ":"
  }

  predicate ColonFree(s: string) {
    ':' !in s
  }

  predicate StartsWith(s: string, prefix: string) {
    prefix <= s
  }

  /** A colon-free head before a colon can be read back. */
  lemma {:induction false} SplitUnique(a: string, b: string, x: string, y: string)
    requires ColonFree(a) && ColonFree(b)
    requires a + ":" + x == b + ":" + y
    ensures a == b && x == y
  {
    var s := a + ":" + x;
    assert s[|a|] == ':' && s[|b|] == ':';
    assert |a| == |b|;
    assert s[..|a|] == a && s[..|b|] == b;
    assert s[|a| + 1..] == x && s[|b| + 1..] == y;
  }

  lemma {:induction false} CutHead(head: string, x: string, y: string)
    requires head + x == head + y
    ensures x == y
  {
    assert (head + x)[|head|..] == x;
    assert (head + y)[|head|..] == y;
  }

  lemma {:induction false} PermissionsKeyInjective(t: Id, u: Id, t': Id, u': Id)
    requires ColonFree(t) && ColonFree(t')
    ensures PermissionsKey(t, u) == PermissionsKey(t', u') <==> t == t' && u == u'
  {
    if PermissionsKey(t, u) == PermissionsKey(t', u') {
      assert PermissionsKey(t, u) == "perms:" + (t + ":" + u);
      assert PermissionsKey(t', u') == "perms:" + (t' + ":" + u');
      CutHead("perms:", t + ":" + u, t' + ":" + u');
      SplitUnique(t, t', u, u');
    }
  }

  lemma {:induction false} PoliciesKeyInjective(t: Id, a: string, r: string, t': Id, a': string, r': string)
    requires ColonFree(t) && ColonFree(t') && ColonFree(a) && ColonFree(a')
    ensures PoliciesKey(t, a, r) == PoliciesKey(t', a', r') <==> t == t' && a == a' && r == r'
  {
    if PoliciesKey(t, a, r) == PoliciesKey(t', a', r') {
      PoliciesKeyParts(t, a, r, t', a', r');
      SplitUnique(a, a', r, r');
    }
  }

  lemma {:induction false} PoliciesKeyParts(t: Id, a: string, r: string, t': Id, a': string, r': string)
    requires ColonFree(t) && ColonFree(t') && PoliciesKey(t, a, r) == PoliciesKey(t', a', r')
    ensures t == t' && a + ":" + r == a' + ":" + r'
  {
    assert PoliciesKey(t, a, r) == "pol:" + (t + ":" + (a + ":" + r));
    assert PoliciesKey(t', a', r') == "pol:" + (t' + ":" + (a' + ":" + r'));
    CutHead("pol:", t + ":" + (a + ":" + r), t' + ":" + (a' + ":" + r'));
    SplitUnique(t, t', a + ":" + r, a' + ":" + r');
  }

  /** Within a colon-free tenant, a policies key is shared with another action or
      resource type exactly when the action or the resource type holds a colon. */
  lemma {:induction false} PoliciesKeySharedExactly(t: Id, a: string, r: string)
    requires ColonFree(t)
    ensures (exists a', r' :: (a', r') != (a, r) && PoliciesKey(t, a', r') == PoliciesKey(t, a, r))
            <==> !ColonFree(a) || !ColonFree(r)
  {
    if !ColonFree(a) {
      var i :| 0 <= i < |a| && a[i] == ':';
      var a', r' := a[..i], a[i + 1..] + ":" + r;
      assert a == a' + ":" + a[i + 1..];
      assert PoliciesKey(t, a', r') == PoliciesKey(t, a, r);
      assert a' != a;
    } else if !ColonFree(r) {
      var i :| 0 <= i < |r| && r[i] == ':';
      var a', r' := a + ":" + r[..i], r[i + 1..];
      assert r == r[..i] + ":" + r';
      assert PoliciesKey(t, a', r') == PoliciesKey(t, a, r);
      assert r' != r;
    } else {
      forall a', r' | PoliciesKey(t, a', r') == PoliciesKey(t, a, r) ensures a' == a && r' == r {
        PoliciesKeyParts(t, a, r, t, a', r');
        OneColon(a, r, a', r');
      }
    }
  }

  lemma {:induction false} OneColon(a: string, r: string, a': string, r': string)
    requires ColonFree(a) && ColonFree(r) && a + ":" + r == a' + ":" + r'
    ensures a == a' && r == r'
  {
    var s := a + ":" + r;
    assert s[|a'|] == ':';
    assert |a'| == |a|;
    assert s[..|a|] == a && s[..|a'|] == a';
    assert s[|a| + 1..] == r && s[|a'| + 1..] == r';
  }

  lemma {:induction false} KindsDiffer(t: Id, u: Id, t': Id, a: string, r: string)
    ensures PermissionsKey(t, u) != PoliciesKey(t', a, r)
  {
    assert PermissionsKey(t, u)[1] == 'e';
    assert PoliciesKey(t', a, r)[1] == 'o';
  }

  /** The tenant prefix covers the tenant's permission keys, and no other key. */
  lemma {:induction false} PermissionsPrefixExact(t: Id, t': Id, u: Id)
    requires ColonFree(t) && ColonFree(t')
    ensures StartsWith(PermissionsKey(t', u), PermissionsPrefix(t)) <==> t == t'
  {
    if StartsWith(PermissionsKey(t', u), PermissionsPrefix(t)) {
      var rest := PermissionsKey(t', u)[|PermissionsPrefix(t)|..];
      assert PermissionsKey(t', u) == PermissionsKey(t, rest);
      PermissionsKeyInjective(t', u, t, rest);
    }
  }

  lemma {:induction false} PermissionsPrefixSkipsPolicies(t: Id, t': Id, a: string, r: string)
    ensures !StartsWith(PoliciesKey(t', a, r), PermissionsPrefix(t))
  {
    assert PermissionsPrefix(t)[1] == 'e' && PoliciesKey(t', a, r)[1] == 'o';
  }

  lemma {:induction false} PoliciesPrefixExact(t: Id, t': Id, a: string, r: string)
    requires ColonFree(t) && ColonFree(t')
    ensures StartsWith(PoliciesKey(t', a, r), PoliciesPrefix(t)) <==> t == t'
  {
    var key, prefix := PoliciesKey(t', a, r), PoliciesPrefix(t);
    assert PoliciesKey(t, a, r) == PoliciesPrefix(t) + (a + ":" + r);
    if StartsWith(key, prefix) {
      var rest := key[|prefix|..];
      assert key == prefix + rest;
      assert key == "pol:" + (t' + ":" + (a + ":" + r));
      assert prefix + rest == "pol:" + (t + ":" + rest);
      CutHead("pol:", t' + ":" + (a + ":" + r), t + ":" + rest);
      SplitUnique(t', t, a + ":" + r, rest);
    }
  }

  lemma {:induction false} PoliciesPrefixSkipsPermissions(t: Id, t': Id, u: Id)
    ensures !StartsWith(PermissionsKey(t', u), PoliciesPrefix(t))
  {
    assert PoliciesPrefix(t)[1] == 'o' && PermissionsKey(t', u)[1] == 'e';
  }
}
