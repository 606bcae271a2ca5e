/** The shipped policy set, and what its salary policies mean end to end. */
module SalaryPolicy {
  import opened Domain
  import opened Forest
  import opened Tables
  import opened Decisions
  import opened PolicyEngine
  import opened AccessSpec

  const NO_CONDITION := Condition(None, None, None, None, None, None, None)

  const SALARY_VIEW := "employee.salary.view"
  const PERFORMANCE_VIEW := "employee.performance.view"
  const PAYROLL_VIEW := "payroll.view"
  const EXPENSE_APPROVE := "expense.approve"

  function AllowSalary(t: Id): Policy {
    Policy(t, "allow-salary-view", Allow, SALARY_VIEW, "employee",
           NO_CONDITION.(relationships := Some([Self, DirectManager, Ancestor]),
                         maxSensitivity := Some(Confidential), requirePermission := Some(true)), 100, true)
  }

  function DenySalary(t: Id): Policy {
    Policy(t, "deny-salary-non-manager", Deny, SALARY_VIEW, "employee",
           NO_CONDITION.(relationships := Some([Sibling, Unrelated])), 10, true)
  }

  function AllowPerformance(t: Id): Policy {
    Policy(t, "allow-performance-view", Allow, PERFORMANCE_VIEW, "employee",
           NO_CONDITION.(relationships := Some([Self, DirectManager, Ancestor]),
                         maxSensitivity := Some(Confidential), requirePermission := Some(true)), 100, true)
  }

  function AllowPayroll(t: Id, hrDepartment: string): Policy {
    Policy(t, "allow-payroll-view", Allow, PAYROLL_VIEW, "payroll",
           NO_CONDITION.(departments := Some([hrDepartment]),
                         maxSensitivity := Some(Confidential), requirePermission := Some(true)), 100, true)
  }

  function AllowExpense(t: Id, financeDepartment: string): Policy {
    Policy(t, "allow-expense-approve", Allow, EXPENSE_APPROVE, "expense",
           NO_CONDITION.(departments := Some([financeDepartment]), requirePermission := Some(true)), 100, true)
  }

  /** The canonical policies of a tenant. */
  function TenantPolicies(t: Id, hrDepartment: string, financeDepartment: string): set<Policy> {
    {AllowPerformance(t), AllowSalary(t), DenySalary(t),
     AllowPayroll(t, hrDepartment), AllowExpense(t, financeDepartment)}
  }

  function PoliciesOf(s: Store, t: Id): set<Policy> {
    set k | k in s.policies && s.policies[k].tenantId == t :: s.policies[k]
  }

  lemma {:induction false} ApplicableFrom(s: Store, t: Id, action: string, kind: string)
    ensures Applicable(s, t, action, kind) == set p | p in PoliciesOf(s, t) && Applies(p, t, action, kind)
  {
  }

  /** The five actions are told apart by their lengths. */
  lemma {:induction false} ActionsDiffer()
    ensures |SALARY_VIEW| == 20 && |PERFORMANCE_VIEW| == 25 && |PAYROLL_VIEW| == 12 && |EXPENSE_APPROVE| == 15
  {
  }

  lemma {:induction false} ShippedApply(s: Store, t: Id, hr: string, finance: string)
    requires PoliciesOf(s, t) == TenantPolicies(t, hr, finance)
    ensures Applicable(s, t, SALARY_VIEW, "employee") == {AllowSalary(t), DenySalary(t)}
    ensures Applicable(s, t, PERFORMANCE_VIEW, "employee") == {AllowPerformance(t)}
    ensures Applicable(s, t, PAYROLL_VIEW, "payroll") == {AllowPayroll(t, hr)}
    ensures Applicable(s, t, EXPENSE_APPROVE, "expense") == {AllowExpense(t, finance)}
  {
    hide PoliciesOf, Applicable, Applies, SALARY_VIEW, PERFORMANCE_VIEW, PAYROLL_VIEW, EXPENSE_APPROVE;
    ShippedApplies(t, hr, finance);
    ApplicableFrom(s, t, SALARY_VIEW, "employee");
    ApplicableFrom(s, t, PERFORMANCE_VIEW, "employee");
    ApplicableFrom(s, t, PAYROLL_VIEW, "payroll");
    ApplicableFrom(s, t, EXPENSE_APPROVE, "expense");
  }

  lemma {:induction false} ShippedApplies(t: Id, hr: string, finance: string)
    ensures forall p :: p in TenantPolicies(t, hr, finance) ==>
      && (Applies(p, t, SALARY_VIEW, "employee") <==> p in {AllowSalary(t), DenySalary(t)})
      && (Applies(p, t, PERFORMANCE_VIEW, "employee") <==> p == AllowPerformance(t))
      && (Applies(p, t, PAYROLL_VIEW, "payroll") <==> p == AllowPayroll(t, hr))
      && (Applies(p, t, EXPENSE_APPROVE, "expense") <==> p == AllowExpense(t, finance))
  {
    ActionsDiffer();
  }

  /** What the two policies say together about one set of facts. */
  lemma {:induction false} SalaryVerdict(t: Id, f: Facts)
    ensures Combined({AllowSalary(t), DenySalary(t)}, f) == Allowed <==>
      && f.relationship in {Self, DirectManager, Ancestor}
      && f.hasPermission
      && MeetsClearance(Confidential, f.sensitivity)
      && MeetsClearance(f.clearance, f.sensitivity)
  {
  }

  /** Owner or somewhere up the owner's chain. */
  ghost predicate SelfOrSuperior(m: Edges, subject: Id, owner: Id) {
    subject == owner || subject in Chain(m, owner)
  }

  lemma {:induction false} SelfOrSuperiorIs(s: Store, t: Id, subject: Id, owner: Id)
    requires OrgConsistent(s)
    ensures RelationshipOf(OrgOf(s, t), subject, owner) in {Self, DirectManager, Ancestor}
       <==> SelfOrSuperior(OrgOf(s, t), subject, owner)
  {
  }

  /** In a tenant with exactly the shipped policies, a salary is shown exactly when
      the request is valid, the resource has an owner, the subject is the owner or in
      the owner's manager chain, a permission grants the action, and the sensitivity
      is within both CONFIDENTIAL and the subject's clearance. */
  lemma {:induction false} SalaryShownExactly(s: Store, q: Request, hr: string, finance: string)
    requires OrgConsistent(s) && PoliciesOf(s, q.tenantId) == TenantPolicies(q.tenantId, hr, finance)
    requires q.action == SALARY_VIEW && q.resourceType == "employee"
    ensures Decide(s, q).effect == Allow <==>
      && Validate(s, q).Valid?
      && var r := Validate(s, q).resource;
      && Truthy(r.ownerUserId)
      && SelfOrSuperior(OrgOf(s, q.tenantId), q.subjectUserId, r.ownerUserId.value)
      && Grants(NamesOf(s, q.tenantId, q.subjectUserId), SALARY_VIEW, "employee")
      && MeetsClearance(Confidential, r.sensitivity)
      && MeetsClearance(s.users[q.subjectUserId].clearance, r.sensitivity)
  {
    hide OrgConsistent, Combined, RelationshipOf, NamesOf, MatchedSet, Applicable, TenantPolicies, PoliciesOf;
    ShippedApply(s, q.tenantId, hr, finance);
    if Validate(s, q).Valid? {
      var r := Validate(s, q).resource;
      SalaryVerdict(q.tenantId, FactsOf(s, q, r));
      if Truthy(r.ownerUserId) {
        SelfOrSuperiorIs(s, q.tenantId, q.subjectUserId, r.ownerUserId.value);
      }
    }
  }

  /** An employee without a resource row: the id stands for its own owner, at
      CONFIDENTIAL, so the salary is shown exactly to that employee and the manager
      chain above, at work in an active tenant, with the permission and cleared for
      CONFIDENTIAL. */
  lemma {:induction false} EmployeeSalaryShownExactly(s: Store, q: Request, hr: string, finance: string)
    requires OrgConsistent(s) && PoliciesOf(s, q.tenantId) == TenantPolicies(q.tenantId, hr, finance)
    requires q.action == SALARY_VIEW && q.resourceType == "employee"
    requires InTenant(s, q.tenantId, q.resourceId)
    requires (q.tenantId, "employee", q.resourceId) !in s.resources
    ensures Decide(s, q).effect == Allow <==>
      && q.tenantId in s.tenants && s.tenants[q.tenantId] == TenantActive
      && InTenant(s, q.tenantId, q.subjectUserId) && s.users[q.subjectUserId].status == Active
      && SelfOrSuperior(OrgOf(s, q.tenantId), q.subjectUserId, q.resourceId)
      && Grants(NamesOf(s, q.tenantId, q.subjectUserId), SALARY_VIEW, "employee")
      && MeetsClearance(s.users[q.subjectUserId].clearance, Confidential)
  {
    hide Decide, SelfOrSuperior, NamesOf, Applicable, TenantPolicies, PoliciesOf;
    SalaryShownExactly(s, q, hr, finance);
  }

  // ---------------------------------------------------------------------------
  // Performance, payroll and expenses
  // ---------------------------------------------------------------------------

  lemma {:induction false} OneAllow(p: Policy, f: Facts)
    requires p.effect == Allow
    ensures Combined({p}, f) == Allowed <==> Passes(p, f)
  {
    hide Matches, Passes;
    MatchesExactly(p, f);
  }

  /** Performance is shown to the owner and the owner's chain, as the salary is. */
  lemma {:induction false} PerformanceShownExactly(s: Store, q: Request, hr: string, finance: string)
    requires OrgConsistent(s) && PoliciesOf(s, q.tenantId) == TenantPolicies(q.tenantId, hr, finance)
    requires q.action == PERFORMANCE_VIEW && q.resourceType == "employee"
    ensures Decide(s, q).effect == Allow <==>
      && Validate(s, q).Valid?
      && var r := Validate(s, q).resource;
      && Truthy(r.ownerUserId)
      && SelfOrSuperior(OrgOf(s, q.tenantId), q.subjectUserId, r.ownerUserId.value)
      && HasPermission(s, q)
      && MeetsClearance(Confidential, r.sensitivity)
      && MeetsClearance(s.users[q.subjectUserId].clearance, r.sensitivity)
  {
    hide OrgConsistent, Combined, RelationshipOf, NamesOf, MatchedSet, Applicable, TenantPolicies, PoliciesOf, Passes;
    ShippedApply(s, q.tenantId, hr, finance);
    if Validate(s, q).Valid? {
      var r := Validate(s, q).resource;
      var f := FactsOf(s, q, r);
      OneAllow(AllowPerformance(q.tenantId), f);
      PerformancePassed(q.tenantId, f);
      if Truthy(r.ownerUserId) {
        SelfOrSuperiorIs(s, q.tenantId, q.subjectUserId, r.ownerUserId.value);
      }
    }
  }

  lemma {:induction false} PerformancePassed(t: Id, f: Facts)
    ensures Passes(AllowPerformance(t), f) <==>
      && f.relationship in {Self, DirectManager, Ancestor}
      && f.hasPermission
      && MeetsClearance(Confidential, f.sensitivity)
      && MeetsClearance(f.clearance, f.sensitivity)
  {
    hide MeetsClearance;
    var p := AllowPerformance(t);
    if Passes(p, f) {
      assert !Fails(p, f, WrongRelationship) && !Fails(p, f, MissingPermission);
      assert !Fails(p, f, SensitivityAboveCeiling) && !Fails(p, f, ClearanceBelowSensitivity);
    }
  }

  /** Payroll is shown exactly to members of the HR department who hold the permission,
      within CONFIDENTIAL and their own clearance; who owns it makes no difference. */
  lemma {:induction false} PayrollShownExactly(s: Store, q: Request, hr: string, finance: string)
    requires PoliciesOf(s, q.tenantId) == TenantPolicies(q.tenantId, hr, finance)
    requires q.action == PAYROLL_VIEW && q.resourceType == "payroll"
    ensures Decide(s, q).effect == Allow <==>
      && Validate(s, q).Valid?
      && var r := Validate(s, q).resource;
      && hr != "" && s.users[q.subjectUserId].departmentId == Some(hr)
      && HasPermission(s, q)
      && MeetsClearance(Confidential, r.sensitivity)
      && MeetsClearance(s.users[q.subjectUserId].clearance, r.sensitivity)
  {
    hide Combined, RelationshipOf, NamesOf, MatchedSet, Applicable, TenantPolicies, PoliciesOf, Passes;
    ShippedApply(s, q.tenantId, hr, finance);
    if Validate(s, q).Valid? {
      var f := FactsOf(s, q, Validate(s, q).resource);
      OneAllow(AllowPayroll(q.tenantId, hr), f);
      PayrollPassed(q.tenantId, hr, f);
    }
  }

  lemma {:induction false} PayrollPassed(t: Id, hr: string, f: Facts)
    ensures Passes(AllowPayroll(t, hr), f) <==>
      && hr != "" && f.departmentId == Some(hr)
      && f.hasPermission
      && MeetsClearance(Confidential, f.sensitivity)
      && MeetsClearance(f.clearance, f.sensitivity)
  {
    hide MeetsClearance;
    var p := AllowPayroll(t, hr);
    if Passes(p, f) {
      assert !Fails(p, f, WrongDepartment) && !Fails(p, f, MissingPermission);
      assert !Fails(p, f, SensitivityAboveCeiling) && !Fails(p, f, ClearanceBelowSensitivity);
    }
  }

  /** Expenses are approved exactly by members of the finance department who hold the
      permission, whatever the sensitivity. */
  lemma {:induction false} ExpenseApprovedExactly(s: Store, q: Request, hr: string, finance: string)
    requires PoliciesOf(s, q.tenantId) == TenantPolicies(q.tenantId, hr, finance)
    requires q.action == EXPENSE_APPROVE && q.resourceType == "expense"
    ensures Decide(s, q).effect == Allow <==>
      && Validate(s, q).Valid?
      && finance != "" && s.users[q.subjectUserId].departmentId == Some(finance)
      && HasPermission(s, q)
  {
    hide Combined, RelationshipOf, NamesOf, MatchedSet, Applicable, TenantPolicies, PoliciesOf, Passes;
    ShippedApply(s, q.tenantId, hr, finance);
    if Validate(s, q).Valid? {
      var f := FactsOf(s, q, Validate(s, q).resource);
      OneAllow(AllowExpense(q.tenantId, finance), f);
      ExpensePassed(q.tenantId, finance, f);
    }
  }

  lemma {:induction false} ExpensePassed(t: Id, finance: string, f: Facts)
    ensures Passes(AllowExpense(t, finance), f) <==>
      finance != "" && f.departmentId == Some(finance) && f.hasPermission
  {
    var p := AllowExpense(t, finance);
    if Passes(p, f) {
      assert !Fails(p, f, WrongDepartment) && !Fails(p, f, MissingPermission);
    }
  }
}
