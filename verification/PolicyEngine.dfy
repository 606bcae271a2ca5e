/** The three clause evaluators and the deny-override combination of policies. */
module PolicyEngine {
  import opened Domain
  import opened Tables
  import opened Decisions

  /** What the evaluators look at, besides the policies. */
  datatype Facts = Facts(
    departmentId: Option<string>,
    location: Option<string>,
    clearance: Clearance,
    status: EmploymentStatus,
    sensitivity: Clearance,
    relationship: Relationship,
    hasPermission: bool)

  // ---------------------------------------------------------------------------
  // Clearance
  // ---------------------------------------------------------------------------

  function ClearanceRank(level: Clearance): nat {
    match level
    case Public => 0
    case Internal => 1
    case Confidential => 2
    case Secret => 3
    case TopSecret => 4
  }

  predicate MeetsClearance(subject: Clearance, required: Clearance) {
    ClearanceRank(subject) >= ClearanceRank(required)
  }

  /** The five levels, lowest first: each meets itself and everything below it. */
  lemma {:induction false} ClearanceOrder(subject: Clearance, required: Clearance)
    ensures MeetsClearance(subject, required) <==>
      match subject
      case Public => required == Public
      case Internal => required in {Public, Internal}
      case Confidential => required in {Public, Internal, Confidential}
      case Secret => required != TopSecret
      case TopSecret => true
  {
  }

  // ---------------------------------------------------------------------------
  // Clauses
  // ---------------------------------------------------------------------------

  /** An absent or empty list does not constrain. */
  predicate Listed<T(==)>(allowed: Option<seq<T>>, actual: T) {
    allowed.None? || allowed.value == [] || actual in allowed.value
  }

  predicate ListedText(allowed: Option<seq<string>>, actual: Option<string>) {
    allowed.None? || allowed.value == [] || (Truthy(actual) && actual.value in allowed.value)
  }

  /** The attribute clauses in order; the first that fails is reported. */
  function AttributeMismatch(c: Condition, f: Facts): Option<Mismatch> {
    if !ListedText(c.departments, f.departmentId) then Some(WrongDepartment)
    else if !ListedText(c.locations, f.location) then Some(WrongLocation)
    else if !Listed(c.employmentStatuses, f.status) then Some(WrongEmploymentStatus)
    else if c.minClearance.Some? && !MeetsClearance(f.clearance, c.minClearance.value) then
      Some(ClearanceTooLow)
    else if c.maxSensitivity.Some? && !MeetsClearance(c.maxSensitivity.value, f.sensitivity) then
      Some(SensitivityAboveCeiling)
    else if c.maxSensitivity.Some? && !MeetsClearance(f.clearance, f.sensitivity) then
      Some(ClearanceBelowSensitivity)
    else None
  }

  /** ALLOW policies need the permission unless they say otherwise; DENY policies
      only when they ask for it. */
  predicate NeedsPermission(p: Policy) {
    match p.conditions.requirePermission
    case Some(required) => required
    case None => p.effect == Allow
  }

  /** The first clause the request fails, or none. */
  function MismatchOf(p: Policy, f: Facts): Option<Mismatch> {
    if !Listed(p.conditions.relationships, f.relationship) then Some(WrongRelationship)
    else if AttributeMismatch(p.conditions, f).Some? then AttributeMismatch(p.conditions, f)
    else if NeedsPermission(p) && !f.hasPermission then Some(MissingPermission)
    else None
  }

  predicate Matches(p: Policy, f: Facts) {
    MismatchOf(p, f).None?
  }

  // ---------------------------------------------------------------------------
  // What each clause asks
  // ---------------------------------------------------------------------------

  ghost predicate Constrains<T>(allowed: Option<seq<T>>) {
    allowed.Some? && allowed.value != []
  }

  /** The request fails the clause, one clause at a time and in terms of the facts it
      reads: a missing or empty department or location fails every list of them. */
  ghost predicate Fails(p: Policy, f: Facts, clause: Mismatch) {
    var c := p.conditions;
    match clause
    case WrongRelationship => Constrains(c.relationships) && f.relationship !in c.relationships.value
    case WrongDepartment => Constrains(c.departments) &&
      (f.departmentId == None || f.departmentId == Some("") || f.departmentId.value !in c.departments.value)
    case WrongLocation => Constrains(c.locations) &&
      (f.location == None || f.location == Some("") || f.location.value !in c.locations.value)
    case WrongEmploymentStatus => Constrains(c.employmentStatuses) && f.status !in c.employmentStatuses.value
    case ClearanceTooLow => c.minClearance.Some? && !MeetsClearance(f.clearance, c.minClearance.value)
    case SensitivityAboveCeiling =>
      c.maxSensitivity.Some? && !MeetsClearance(c.maxSensitivity.value, f.sensitivity)
    case ClearanceBelowSensitivity => c.maxSensitivity.Some? && !MeetsClearance(f.clearance, f.sensitivity)
    case MissingPermission =>
      (c.requirePermission == Some(true) || (c.requirePermission == None && p.effect == Allow)) && !f.hasPermission
  }

  ghost predicate Passes(p: Policy, f: Facts) {
    forall clause :: !Fails(p, f, clause)
  }

  /** The order in which the clauses are tested. */
  ghost function TestedAs(clause: Mismatch): nat {
    match clause
    case WrongRelationship => 0
    case WrongDepartment => 1
    case WrongLocation => 2
    case WrongEmploymentStatus => 3
    case ClearanceTooLow => 4
    case SensitivityAboveCeiling => 5
    case ClearanceBelowSensitivity => 6
    case MissingPermission => 7
  }

  ghost predicate FirstFailure(p: Policy, f: Facts, clause: Mismatch) {
    Fails(p, f, clause) && forall other :: TestedAs(other) < TestedAs(clause) ==> !Fails(p, f, other)
  }

  /** A policy matches exactly when the request fails none of its clauses; otherwise the
      clause reported is the first one failed. */
  lemma {:induction false} MatchesExactly(p: Policy, f: Facts)
    ensures Matches(p, f) <==> Passes(p, f)
    ensures MismatchOf(p, f).Some? ==> FirstFailure(p, f, MismatchOf(p, f).value)
  {
    hide MeetsClearance;
    if Matches(p, f) {
      forall clause ensures !Fails(p, f, clause) {
        match clause {
          case WrongRelationship =>
          case WrongDepartment =>
          case WrongLocation =>
          case WrongEmploymentStatus =>
          case ClearanceTooLow =>
          case SensitivityAboveCeiling =>
          case ClearanceBelowSensitivity =>
          case MissingPermission =>
        }
      }
    } else {
      assert Fails(p, f, MismatchOf(p, f).value);
    }
  }

  predicate ReadsClearance(p: Policy) {
    p.conditions.minClearance.Some? || p.conditions.maxSensitivity.Some?
  }

  /** A policy looks at a fact only through the clauses it has: requests that agree on
      what the clauses read match alike. */
  lemma {:induction false} ReadsOnlyItsClauses(p: Policy, f: Facts, g: Facts)
    requires Constrains(p.conditions.relationships) ==> g.relationship == f.relationship
    requires Constrains(p.conditions.departments) ==> g.departmentId == f.departmentId
    requires Constrains(p.conditions.locations) ==> g.location == f.location
    requires Constrains(p.conditions.employmentStatuses) ==> g.status == f.status
    requires ReadsClearance(p) ==> g.clearance == f.clearance
    requires p.conditions.maxSensitivity.Some? ==> g.sensitivity == f.sensitivity
    requires p.conditions.requirePermission == Some(false)
               || (p.conditions.requirePermission == None && p.effect == Deny)
               || g.hasPermission == f.hasPermission
    ensures Matches(p, g) <==> Matches(p, f)
  {
    hide Matches, MeetsClearance;
    MatchesExactly(p, f);
    MatchesExactly(p, g);
    forall clause ensures Fails(p, g, clause) <==> Fails(p, f, clause) {}
  }

  /** In particular a list of departments decides by the department alone ... */
  lemma {:induction false} DepartmentDecides(p: Policy, f: Facts, d: Option<string>)
    requires Constrains(p.conditions.departments) && Matches(p, f)
    ensures Matches(p, f.(departmentId := d)) <==>
      exists name :: name in p.conditions.departments.value && name != "" && d == Some(name)
  {
    hide Matches, MeetsClearance;
    var g := f.(departmentId := d);
    MatchesExactly(p, f);
    MatchesExactly(p, g);
    forall clause | clause != WrongDepartment ensures !Fails(p, g, clause) { assert !Fails(p, f, clause); }
    if d.Some? { assert Passes(p, g) <==> !Fails(p, g, WrongDepartment); }
  }

  /** ... a list of locations by the location alone ... */
  lemma {:induction false} LocationDecides(p: Policy, f: Facts, l: Option<string>)
    requires Constrains(p.conditions.locations) && Matches(p, f)
    ensures Matches(p, f.(location := l)) <==>
      exists name :: name in p.conditions.locations.value && name != "" && l == Some(name)
  {
    hide Matches, MeetsClearance;
    var g := f.(location := l);
    MatchesExactly(p, f);
    MatchesExactly(p, g);
    forall clause | clause != WrongLocation ensures !Fails(p, g, clause) { assert !Fails(p, f, clause); }
    if l.Some? { assert Passes(p, g) <==> !Fails(p, g, WrongLocation); }
  }

  /** ... and a list of employment statuses by the status alone. */
  lemma {:induction false} StatusDecides(p: Policy, f: Facts, status: EmploymentStatus)
    requires Constrains(p.conditions.employmentStatuses) && Matches(p, f)
    ensures Matches(p, f.(status := status)) <==> status in p.conditions.employmentStatuses.value
  {
    hide Matches, MeetsClearance;
    var g := f.(status := status);
    MatchesExactly(p, f);
    MatchesExactly(p, g);
    forall clause | clause != WrongEmploymentStatus ensures !Fails(p, g, clause) { assert !Fails(p, f, clause); }
  }

  // ---------------------------------------------------------------------------
  // Combination
  // ---------------------------------------------------------------------------

  /** default deny < allow < explicit deny */
  datatype Verdict = DefaultDeny | Allowed | Denied

  function Join(a: Verdict, b: Verdict): Verdict {
    if a == Denied || b == Denied then Denied
    else if a == Allowed || b == Allowed then Allowed
    else DefaultDeny
  }

  function VerdictOf(p: Policy, f: Facts): Verdict {
    if !Matches(p, f) then DefaultDeny
    else if p.effect == Deny then Denied
    else Allowed
  }

  function EffectOf(v: Verdict): Effect {
    if v == Allowed then Allow else Deny
  }

  /** The verdict on a set of policies, whatever their order. */
  function Combined(ps: set<Policy>, f: Facts): Verdict {
    if exists p :: p in ps && VerdictOf(p, f) == Denied then Denied
    else if exists p :: p in ps && VerdictOf(p, f) == Allowed then Allowed
    else DefaultDeny
  }

  function PolicySet(ps: seq<Policy>): set<Policy> {
    set p | p in ps
  }

  /** The names of matching policies with a given effect, in list order. */
  function MatchedNames(ps: seq<Policy>, f: Facts, e: Effect): seq<string> {
    if ps == [] then []
    else
      var n := |ps| - 1;
      MatchedNames(ps[..n], f, e) + if Matches(ps[n], f) && ps[n].effect == e then [ps[n].name] else []
  }

  function EventOf(p: Policy, f: Facts): TraceEvent {
    match MismatchOf(p, f)
    case None => PolicyMatched(p.name, p.effect)
    case Some(why) => PolicySkipped(p.name, p.effect, why)
  }

  /** One trace line per policy, in list order. */
  function PolicyTrace(ps: seq<Policy>, f: Facts): (lines: seq<TraceEvent>)
    ensures |lines| == |ps|
  {
    if ps == [] then []
    else PolicyTrace(ps[..|ps| - 1], f) + [EventOf(ps[|ps| - 1], f)]
  }

  /** The reason given, with the names that decided. */
  function ReasonOf(ps: seq<Policy>, f: Facts): Reason {
    match Combined(PolicySet(ps), f)
    case Denied => ExplicitDeny(MatchedNames(ps, f, Deny))
    case Allowed => AllowedBy(MatchedNames(ps, f, Allow))
    case DefaultDeny => NoMatchingAllow
  }

  /** The outcome of the evaluation loop, without the trace. */
  datatype PolicyDecision = PolicyDecision(effect: Effect, reason: Reason, matched: seq<string>)

  ghost predicate PassesWith(ps: seq<Policy>, f: Facts, e: Effect, name: string) {
    exists p :: p in ps && p.effect == e && Passes(p, f) && p.name == name
  }

  ghost predicate SomePasses(ps: seq<Policy>, f: Facts, e: Effect) {
    exists p :: p in ps && p.effect == e && Passes(p, f)
  }

  /** Deny-override in plain terms: a passed DENY denies, otherwise a passed ALLOW allows,
      otherwise nothing does; and the names given are those of the policies passed. */
  ghost predicate DecidedBy(ps: seq<Policy>, f: Facts, d: PolicyDecision) {
    && (d.effect == Allow <==> SomePasses(ps, f, Allow) && !SomePasses(ps, f, Deny))
    && (match d.reason
        case ExplicitDeny(names) =>
          SomePasses(ps, f, Deny) && forall name :: name in names <==> PassesWith(ps, f, Deny, name)
        case AllowedBy(names) =>
          d.effect == Allow && forall name :: name in names <==> PassesWith(ps, f, Allow, name)
        case NoMatchingAllow => !SomePasses(ps, f, Allow) && !SomePasses(ps, f, Deny)
        case _ => false)
    && (forall name :: name in d.matched <==> PassesWith(ps, f, Deny, name) || PassesWith(ps, f, Allow, name))
  }

  /** The line says of the policy whether it was passed, and if not, where it failed. */
  ghost predicate Tells(line: TraceEvent, p: Policy, f: Facts) {
    match line
    case PolicyMatched(name, effect) => name == p.name && effect == p.effect && Passes(p, f)
    case PolicySkipped(name, effect, why) => name == p.name && effect == p.effect && FirstFailure(p, f, why)
    case _ => false
  }

  method Evaluate(policies: seq<Policy>, f: Facts, trace: seq<TraceEvent>)
    returns (decision: PolicyDecision, trace': seq<TraceEvent>)
    ensures decision.effect == EffectOf(Combined(PolicySet(policies), f))
    ensures decision.reason == ReasonOf(policies, f)
    ensures decision.matched == MatchedNames(policies, f, Deny) + MatchedNames(policies, f, Allow)
    ensures trace' == trace + PolicyTrace(policies, f)
    ensures DecidedBy(policies, f, decision)
    ensures |trace'| == |trace| + |policies|
    ensures forall i :: 0 <= i < |policies| ==> Tells(trace'[|trace| + i], policies[i], f)
  {
    hide MismatchOf, Combined, PolicySet, DecidedBy, Tells, MatchedNames, PolicyTrace;
    NothingYet(policies, f);
    var matchedAllow: seq<string> := [];
    var matchedDeny: seq<string> := [];
    trace' := trace;
    for i := 0 to |policies|
      invariant matchedAllow == MatchedNames(policies[..i], f, Allow)
      invariant matchedDeny == MatchedNames(policies[..i], f, Deny)
      invariant trace' == trace + PolicyTrace(policies[..i], f)
    {
      var policy := policies[i];
      OneMore(policies, f, i);
      match MismatchOf(policy, f) {
        case None =>
          trace' := trace' + [PolicyMatched(policy.name, policy.effect)];
          if policy.effect == Deny {
            matchedDeny := matchedDeny + [policy.name];
          } else {
            matchedAllow := matchedAllow + [policy.name];
          }
        case Some(why) =>
          trace' := trace' + [PolicySkipped(policy.name, policy.effect, why)];
      }
    }
    assert policies[..|policies|] == policies;
    CombinedByNames(policies, f);
    if |matchedDeny| > 0 {
      decision := PolicyDecision(Deny, ExplicitDeny(matchedDeny), matchedDeny + matchedAllow);
    } else if |matchedAllow| > 0 {
      decision := PolicyDecision(Allow, AllowedBy(matchedAllow), matchedAllow);
    } else {
      decision := PolicyDecision(Deny, NoMatchingAllow, []);
    }
    NamesDecide(policies, f, decision);
    TraceTellsAll(trace, policies, f);
  }

  lemma {:induction false} NothingYet(ps: seq<Policy>, f: Facts)
    ensures forall e :: MatchedNames(ps[..0], f, e) == []
    ensures PolicyTrace(ps[..0], f) == []
  {
  }

  /** One round of the loop. */
  lemma {:induction false} OneMore(ps: seq<Policy>, f: Facts, i: nat)
    requires i < |ps|
    ensures forall e ::
      MatchedNames(ps[..i + 1], f, e)
      == MatchedNames(ps[..i], f, e) + if Matches(ps[i], f) && ps[i].effect == e then [ps[i].name] else []
    ensures PolicyTrace(ps[..i + 1], f) == PolicyTrace(ps[..i], f) + [EventOf(ps[i], f)]
  {
    hide MismatchOf;
    assert ps[..i + 1][..i] == ps[..i];
  }

  lemma {:induction false} TraceTellsAll(trace: seq<TraceEvent>, ps: seq<Policy>, f: Facts)
    ensures forall i :: 0 <= i < |ps| ==> Tells((trace + PolicyTrace(ps, f))[|trace| + i], ps[i], f)
  {
    hide Tells, PolicyTrace;
    forall i | 0 <= i < |ps| ensures Tells((trace + PolicyTrace(ps, f))[|trace| + i], ps[i], f) {
      TraceTells(ps, f, i);
    }
  }

  lemma {:induction false} TraceTells(ps: seq<Policy>, f: Facts, i: nat)
    requires i < |ps|
    ensures Tells(PolicyTrace(ps, f)[i], ps[i], f)
    decreases |ps|
  {
    hide MismatchOf, Fails;
    if i < |ps| - 1 {
      TraceTells(ps[..|ps| - 1], f, i);
    } else {
      MatchesExactly(ps[i], f);
    }
  }

  lemma {:induction false} MatchedNameIs(ps: seq<Policy>, f: Facts, e: Effect, name: string)
    ensures name in MatchedNames(ps, f, e) <==>
      exists p :: p in ps && Matches(p, f) && p.effect == e && p.name == name
    decreases |ps|
  {
    hide MismatchOf;
    if ps != [] {
      var n := |ps| - 1;
      MatchedNameIs(ps[..n], f, e, name);
      assert ps == ps[..n] + [ps[n]];
    }
  }

  lemma {:induction false} MatchedNamePasses(ps: seq<Policy>, f: Facts, e: Effect, name: string)
    ensures name in MatchedNames(ps, f, e) <==> PassesWith(ps, f, e, name)
  {
    hide Matches, Passes;
    MatchedNameIs(ps, f, e, name);
    forall p ensures Matches(p, f) <==> Passes(p, f) { MatchesExactly(p, f); }
  }

  lemma {:induction false} SomeNamePasses(ps: seq<Policy>, f: Facts, e: Effect)
    ensures MatchedNames(ps, f, e) != [] <==> SomePasses(ps, f, e)
  {
    hide Matches, Passes, MatchedNames;
    MatchedNamesNonempty(ps, f, e);
    forall p ensures Matches(p, f) <==> Passes(p, f) { MatchesExactly(p, f); }
  }

  lemma {:induction false} NamesDecide(ps: seq<Policy>, f: Facts, d: PolicyDecision)
    requires d == var deny, allow := MatchedNames(ps, f, Deny), MatchedNames(ps, f, Allow);
      if deny != [] then PolicyDecision(Deny, ExplicitDeny(deny), deny + allow)
      else if allow != [] then PolicyDecision(Allow, AllowedBy(allow), allow)
      else PolicyDecision(Deny, NoMatchingAllow, [])
    ensures DecidedBy(ps, f, d)
  {
    hide PassesWith, SomePasses, MatchedNames;
    SomeNamePasses(ps, f, Deny);
    SomeNamePasses(ps, f, Allow);
    forall name
      ensures name in MatchedNames(ps, f, Deny) <==> PassesWith(ps, f, Deny, name)
      ensures name in MatchedNames(ps, f, Allow) <==> PassesWith(ps, f, Allow, name)
    {
      MatchedNamePasses(ps, f, Deny, name);
      MatchedNamePasses(ps, f, Allow, name);
    }
  }

  lemma {:induction false} MatchedNamesNonempty(ps: seq<Policy>, f: Facts, e: Effect)
    ensures MatchedNames(ps, f, e) != [] <==> exists p :: p in ps && Matches(p, f) && p.effect == e
    decreases |ps|
  {
    if ps != [] {
      var n := |ps| - 1;
      MatchedNamesNonempty(ps[..n], f, e);
      assert ps == ps[..n] + [ps[n]];
    }
  }

  lemma {:induction false} CombinedByNames(ps: seq<Policy>, f: Facts)
    ensures Combined(PolicySet(ps), f) ==
      if MatchedNames(ps, f, Deny) != [] then Denied
      else if MatchedNames(ps, f, Allow) != [] then Allowed
      else DefaultDeny
  {
    hide MismatchOf, MatchedNames;
    MatchedNamesNonempty(ps, f, Deny);
    MatchedNamesNonempty(ps, f, Allow);
    if p :| p in ps && Matches(p, f) && p.effect == Deny {
      assert p in PolicySet(ps) && VerdictOf(p, f) == Denied;
    } else if p :| p in ps && Matches(p, f) && p.effect == Allow {
      assert p in PolicySet(ps) && VerdictOf(p, f) == Allowed;
    }
  }

  // ---------------------------------------------------------------------------
  // The combination is a join
  // ---------------------------------------------------------------------------

  lemma {:induction false} CombinedIsJoin(a: set<Policy>, b: set<Policy>, f: Facts)
    ensures Combined(a + b, f) == Join(Combined(a, f), Combined(b, f))
  {
  }

  /** Adding one policy joins its verdict to the others'. */
  lemma {:induction false} AddedIsJoined(ps: set<Policy>, p: Policy, f: Facts)
    ensures Combined(ps + {p}, f) == Join(Combined(ps, f), VerdictOf(p, f))
  {
    hide Matches;
    CombinedIsJoin(ps, {p}, f);
    assert Combined({p}, f) == VerdictOf(p, f);
  }

  /** Fold over the list with the join: the evaluation loop as algebra. */
  function Folded(ps: seq<Policy>, f: Facts): Verdict {
    if ps == [] then DefaultDeny
    else Join(Folded(ps[..|ps| - 1], f), VerdictOf(ps[|ps| - 1], f))
  }

  lemma {:induction false} FoldedIsCombined(ps: seq<Policy>, f: Facts)
    ensures Folded(ps, f) == Combined(PolicySet(ps), f)
    decreases |ps|
  {
    if ps != [] {
      var n := |ps| - 1;
      FoldedIsCombined(ps[..n], f);
      CombinedIsJoin(PolicySet(ps[..n]), {ps[n]}, f);
      assert ps == ps[..n] + [ps[n]];
      assert PolicySet(ps) == PolicySet(ps[..n]) + {ps[n]};
      assert Combined({ps[n]}, f) == VerdictOf(ps[n], f);
    }
  }

  /** Evaluating two lists one after the other joins their verdicts. */
  lemma {:induction false} FoldedConcat(a: seq<Policy>, b: seq<Policy>, f: Facts)
    ensures Folded(a + b, f) == Join(Folded(a, f), Folded(b, f))
  {
    FoldedIsCombined(a + b, f);
    FoldedIsCombined(a, f);
    FoldedIsCombined(b, f);
    CombinedIsJoin(PolicySet(a), PolicySet(b), f);
    assert PolicySet(a + b) == PolicySet(a) + PolicySet(b);
  }

  ghost function NameBag(p: Policy, f: Facts, e: Effect): multiset<string> {
    if Matches(p, f) && p.effect == e then multiset{p.name} else multiset{}
  }

  lemma {:induction false} MatchedNamesSplit(a: seq<Policy>, b: seq<Policy>, f: Facts, e: Effect)
    ensures MatchedNames(a + b, f, e) == MatchedNames(a, f, e) + MatchedNames(b, f, e)
    decreases |b|
  {
    hide Matches;
    if b == [] {
      assert a + b == a;
    } else {
      var n := |b| - 1;
      MatchedNamesSplit(a, b[..n], f, e);
      assert (a + b)[..|a + b| - 1] == a + b[..n];
    }
  }

  lemma {:induction false} MatchedNamesSingle(p: Policy, f: Facts, e: Effect)
    ensures multiset(MatchedNames([p], f, e)) == NameBag(p, f, e)
  {
  }

  lemma {:induction false} MatchedNamesRemove(left: seq<Policy>, p: Policy, right: seq<Policy>, f: Facts, e: Effect)
    ensures multiset(MatchedNames(left + ([p] + right), f, e))
         == NameBag(p, f, e) + multiset(MatchedNames(left + right, f, e))
  {
    hide MatchedNames, NameBag;
    MatchedNamesSplit(left, right, f, e);
    MatchedNamesSplit(left, [p] + right, f, e);
    MatchedNamesSplit([p], right, f, e);
    MatchedNamesSingle(p, f, e);
  }

  /** Order does not matter, ties in priority included: every permutation of the
      list reports the same names the same number of times. */
  lemma {:induction false} MatchedNamesPermutation(a: seq<Policy>, b: seq<Policy>, f: Facts, e: Effect)
    requires multiset(a) == multiset(b)
    ensures multiset(MatchedNames(a, f, e)) == multiset(MatchedNames(b, f, e))
    decreases |a|
  {
    hide MatchedNames, NameBag;
    if a == [] {
      assert b == [] by { assert |multiset(b)| == 0; }
    } else {
      var p := a[0];
      assert p in multiset(a);
      var left, right := TakeOut(b, p);
      var rest := a[1..];
      DropFirst(a);
      MatchedNamesPermutation(rest, left + right, f, e);
      MatchedNamesRemove([], p, rest, f, e);
      MatchedNamesRemove(left, p, right, f, e);
    }
  }

  lemma {:induction false} DropFirst(a: seq<Policy>)
    requires a != []
    ensures a == [] + ([a[0]] + a[1..]) && [] + a[1..] == a[1..]
    ensures multiset(a[1..]) == multiset(a) - multiset{a[0]}
  {
  }

  lemma {:induction false} TakeOut(b: seq<Policy>, p: Policy) returns (left: seq<Policy>, right: seq<Policy>)
    requires p in multiset(b)
    ensures b == left + ([p] + right)
    ensures multiset(left + right) == multiset(b) - multiset{p}
  {
    var i :| 0 <= i < |b| && b[i] == p;
    left, right := b[..i], b[i + 1..];
    assert b == left + ([p] + right);
    assert multiset(b) == multiset(left) + (multiset{p} + multiset(right));
  }

  lemma {:induction false} EffectPermutation(a: seq<Policy>, b: seq<Policy>, f: Facts)
    requires multiset(a) == multiset(b)
    ensures Folded(a, f) == Folded(b, f)
  {
    FoldedIsCombined(a, f);
    FoldedIsCombined(b, f);
    assert forall p :: p in a <==> p in multiset(a);
    assert forall p :: p in b <==> p in multiset(b);
    assert PolicySet(a) == PolicySet(b);
  }
}
