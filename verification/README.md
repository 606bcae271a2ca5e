# Verified model of the IAM access-control service

The service answers one question, "may this subject do this to that resource?", from
fast structures: a closure table over the organization, a TTL cache over permissions and
policies, and a policy loop with deny-override. This project models those structures as
the code maintains them and proves that they answer exactly as simple specifications do.

- **Organization** (`Forest`, `ClosureTable`, `ClosureCounts`, `HierarchySpec`,
  `HierarchyAnswers`, `HierarchyService`, `SeedBuilder`, `SeededStore`). The specification is a
  partial map from user to manager, walked one hop at a time (`Forest.Up`, `Forest.Chain`). The
  closure table is proved to be its reflexive and transitive closure with exact depths, in
  every state any history reaches, from the shipped seed too; a re-parenting is proved exact in
  content, in row counts and in what it leaves alone; every relationship question answered by
  row lookup equals the walk.
- **Cache** (`CacheKeys`, `CacheService`, `CacheCoherence`, `Writes`, `CrossTenantGrant`,
  `InterleavedCache`). One operation at a time, the cache is invisible, with exact conditions
  on keys and writes. Under interleaving of reads (look, load, fill) and writes (commit,
  invalidate) over the joined strings, staleness is bounded by the lifetime, stale reads never
  grant too much, and freshness after an invalidation has an exact condition.
- **Decisions** (`PolicyEngine`, `AccessSpec`, `AuthorizationService`, `SalaryPolicy`). Each
  clause of a policy reads its own fact; the policy loop is a join and ignores order; the
  pipeline computes a function of the database alone and leaves one audit row whose trace tells
  what happened; the shipped policies mean what they are meant to.
- **Histories** (`AdminSpec`, `SystemRuns`, `Provisioning`, `NonInterference`, `History`).
  Invariants over all runs, what each administrative operation gives and to whom, exactly when
  more permission hurts, tenant isolation as a two-run theorem, and a replay of whole histories
  through the cached, table-backed services that agrees with the uncached engine.

`Database` holds one field per table. A `findFirst` without an order returns an arbitrary
matching row, a `findMany` without an order lists its rows in an arbitrary order, and ties of
an `orderBy` are arbitrary; the proofs show that no answer depends on these choices. A
transaction is one atomic step, and a throw inside it restores the table. Clock readings,
generated identifiers and the passage of time are parameters. Empty strings are falsy where
the code tests for truthiness.

## Where the code is narrower than its promise

- `AssignKeepsExactly`: `assignManager` writes rows for any existing user but the manager edge
  only for a user of the tenant, so table and edges stay together exactly when the moved user
  belongs to the tenant. The entry points in `users.service.ts` ensure it.
- `InvalidationCoversExactly`, `GrantServesTrueExactly`: `assignPermission` does not look the
  role up in the tenant; the comment at `src/permissions/permissions.service.ts:32` leaves it
  to a foreign key that only asks that the role exist. The tenant-wide invalidation suffices
  exactly when no user of another tenant gains the name, in particular when the role belongs
  to the granting tenant (`OwnRoleContained`). `DecisionChanges` is a grant for which it does
  not, and which changes a decision of the other tenant.
- `OtherStepExactly`: the same grant is the one operation by which a tenant shows in another
  tenant's decisions, exactly when the role lacked the name.
- `OwnStepExactly`: the manager of a new user, the user of `addNode` and the role of
  `assignPermission` are not looked up in the tenant, so an operation can tell whether another
  tenant has such an id; two systems that agree on a tenant go on agreeing exactly when the id
  exists in both or in neither, where it matters.
- `FillSafeExactly`, `PoliciesKeySharedExactly`: cache keys are joined with colons, and two of
  them can be the same string, within a tenant exactly when an action or a resource type holds
  a colon. Reading through the cache is safe for a set of keys exactly when no two of them
  meet; colon-free tenant ids and actions are enough (`ColonFreeApart`).
- `BoundedStalenessExactly`, `RivalServed`: the same holds under interleaving. A served value is
  always bounded in age, but it may have been loaded for another key of the same string, unless
  no two of the keys read share one.
- `FreshAfterInvalidationExactly`, `FreshAmongApartExactly`, `OvertakenLoadServesStale`: after an
  invalidation, reads are current until the next write exactly when no overtaken load is in
  flight; such a load puts its value back into the cache. A fill for another key of the same
  string ends the freshness too.
- `SeededConsistentExactly`: the foreign key on a user's manager accepts a user of any tenant, so
  a seeded table is the closure of the stored managers exactly when each of them is listed.
- `SeedInsertableExactly`: the batch builder terminates on every input, but its rows satisfy
  the table's unique index exactly when the manager edges have no cycle.
- `GrantsHurtExactly`, `RaisingClearanceExactly`: more permissions or a higher clearance turn
  an ALLOW into a DENY exactly when an applicable DENY policy that asks for the permission, or
  reads clearance, then matches.

## Model

| member | source | states |
|---|---|---|
| Forest.WalkIsUp | prisma/seed.ts:51-59 | a walk upwards, cycles included, lists successive managers once each and stops at a root or at the first user already seen |
| Forest.ChainIsUp | src/hierarchy/hierarchy.service.ts:167-174 | without cycles the chain of a user is exactly its managers at depths 1, 2, ..., n, without gap or repeat, and nothing lies beyond |
| Forest.ChainMembers | src/hierarchy/hierarchy.service.ts:120-125 | a user is in the chain of another exactly when some positive number of manager hops leads to it |
| Forest.RelationshipByHops | src/hierarchy/hierarchy.service.ts:131-157 | each of the five relationships in terms of manager hops alone |
| Forest.SiblingSymmetric | src/hierarchy/hierarchy.service.ts:147-154 | being siblings is symmetric |
| Forest.AuthorityIsOneWay | src/hierarchy/hierarchy.service.ts:140-145 | whoever is direct manager or ancestor of b is unrelated from b's side |
| Forest.ReparentAcyclic | src/hierarchy/hierarchy.service.ts:49-55 | one edge change keeps the organization acyclic exactly when the new manager is outside the moved subtree |
| ClosureTable.ClosureIsAcyclic | src/hierarchy/hierarchy.service.ts:49-55 | a table that is the closure of its edges leaves no room for a cycle |
| ClosureTable.ClosureUnique | src/hierarchy/hierarchy.service.ts:39-107 | edges and registered users determine the table |
| ClosureTable.ClosureDeterminesEdges | src/hierarchy/hierarchy.service.ts:104-105 | the table determines the manager edges |
| ClosureTable.CycleTestExact | src/hierarchy/hierarchy.service.ts:49-55 | the row the cycle test looks for exists exactly when the user is at or above the proposed manager |
| ClosureTable.DetachExact | src/hierarchy/hierarchy.service.ts:76-85 | the deletion removes a row exactly when it leads from an old proper ancestor into the subtree; surviving rows into the subtree start inside it |
| ClosureTable.CrossJoinIsNew | src/hierarchy/hierarchy.service.ts:87-102 | no inserted row meets a surviving one, so skipDuplicates skips nothing and no stale depth survives |
| ClosureTable.ReparentIsClosure | src/hierarchy/hierarchy.service.ts:57-106 | delete and cross join together turn the closure of the old edges into the closure of the new ones |
| ClosureCounts.AncestorsAreChain | src/hierarchy/hierarchy.service.ts:62-74 | the rows above a user are its chain and itself, and their number is the chain's length plus one |
| ClosureCounts.RectangleIsProduct | src/hierarchy/hierarchy.service.ts:76-85 | the deleted rows are the full product of old proper ancestors and subtree |
| ClosureCounts.ReparentCounts | src/hierarchy/hierarchy.service.ts:70-102 | a move of an m-member subtree deletes m times (old managers) rows and inserts m times (managers of the new manager plus one) |
| ClosureCounts.TableSize | prisma/schema.prisma:280-297 | the table's size is the sum over registered users of chain length plus one |
| ClosureCounts.ReparentFrame | src/hierarchy/hierarchy.service.ts:57-102 | rows between two users both inside or both outside the moved subtree keep presence and depth |
| ClosureCounts.RelationshipFrame | src/hierarchy/hierarchy.service.ts:131-157 | a relationship changes only from outside the subtree into it, or between sibling and unrelated for the moved user itself |
| HierarchySpec.AddNodeKeeps | src/hierarchy/hierarchy.service.ts:28-33 | addNode keeps every tenant's closure exact |
| HierarchySpec.AssignEdges | src/hierarchy/hierarchy.service.ts:104-105 | an accepted move changes one edge of one tenant |
| HierarchySpec.AssignClosure | src/hierarchy/hierarchy.service.ts:39-107 | after an accepted move every tenant's table is the closure of its new edges |
| HierarchySpec.AssignNodes | src/hierarchy/hierarchy.service.ts:45-47 | an accepted move registers exactly the two users |
| HierarchySpec.AssignKeeps | src/hierarchy/hierarchy.service.ts:39-107 | assignManager for a user of the tenant keeps every closure exact, whatever it answers |
| HierarchySpec.AssignKeepsExactly | src/hierarchy/hierarchy.service.ts:104-105 | an accepted move keeps table and edges together exactly when the user belongs to the tenant |
| HierarchySpec.RefusedExactly | src/hierarchy/hierarchy.service.ts:40-55 | a move between existing users is refused exactly when the manager is the user or reports to it, and a refusal changes nothing |
| HierarchySpec.RefusalTold | src/hierarchy/hierarchy.service.ts:40-55 | which of the three refusals a move meets, by self, existence and chain, and that each writes nothing |
| HierarchySpec.MovedUsers | src/hierarchy/hierarchy.service.ts:104-105 | an accepted move writes the user's manager, no other field of the row and no other row |
| HierarchySpec.CreateUserKeeps | src/users/users.service.ts:21-45 | creating a user, with or without a manager, keeps every closure exact |
| HierarchySpec.CreateUserRegisters | src/users/users.service.ts:35-39 | and leaves every user, the new one included, with a self row in its tenant, even when the manager is refused |
| HierarchySpec.CreatedUser | src/users/users.service.ts:21-40 | a new user is stored as asked, with the named manager exactly when that manager exists, and no other user row changes |
| AdminSpec.UpdateUserKeeps | src/users/users.service.ts:65-75 | changing a user's attributes keeps every closure exact and every user registered |
| HierarchyAnswers.DepthOneIsManager | src/hierarchy/hierarchy.service.ts:159-165 | whichever depth-1 row is found names the user's manager, and none is found exactly when there is no manager |
| HierarchyAnswers.RowIsAuthority | src/hierarchy/hierarchy.service.ts:140-145 | a row of depth at least 1 is found exactly for chain members, and its depth is 1 exactly for the direct manager |
| HierarchyService.HierarchyService.AddNode | src/hierarchy/hierarchy.service.ts:28-33 | the method's new store is the specified one, and its outcome says whether the foreign key accepted |
| HierarchyService.HierarchyService.CrossJoinRows | src/hierarchy/hierarchy.service.ts:87-99 | the nested loops build a row for every pair of an ancestor and a descendant, with summed depth plus one, and no other row |
| HierarchyService.HierarchyService.DetachSubtree | src/hierarchy/hierarchy.service.ts:68-85 | reading the old ancestors and deleting performs the specified detachment, guard included |
| HierarchyService.HierarchyService.AssignManager | src/hierarchy/hierarchy.service.ts:39-107 | the steps of the code, in their order and with rollback, produce exactly the specified store and outcome |
| HierarchyService.HierarchyService.IsDirectManager | src/hierarchy/hierarchy.service.ts:113-118 | true exactly when the subject is the target's manager |
| HierarchyService.HierarchyService.IsAncestor | src/hierarchy/hierarchy.service.ts:120-125 | true exactly when the subject is in the target's chain |
| HierarchyService.HierarchyService.GetRelationship | src/hierarchy/hierarchy.service.ts:131-157 | the answer by row lookups is the answer of the recursive walk, whichever rows findFirst returns |
| HierarchyService.HierarchyService.GetAncestors | src/hierarchy/hierarchy.service.ts:167-174 | entry i has depth i + 1 and is the manager i + 1 hops up, and there is no manager beyond the last entry |
| HierarchyService.HierarchyService.GetDescendants | src/hierarchy/hierarchy.service.ts:176-183 | sorted by depth, without repeats, v at depth k exactly when the user is k >= 1 hops above v |
| SeedBuilder.BuildClosureRows | prisma/seed.ts:37-62 | the loop terminates on every input and builds the self row and the walk of every listed user, in order |
| SeedBuilder.BuiltIsClosure | prisma/seed.ts:36-62 | for an acyclic list whose managers are all listed, the table the rows leave behind is the closure of the list's edges over the listed users |
| SeedBuilder.BuilderAgreesWithService | prisma/seed.ts:36-62 | a table kept by any history over the same edges and users is the table the builder's rows leave behind |
| SeedBuilder.SeedInsertableExactly | prisma/seed.ts:110-116 | with unique ids the rows satisfy the unique index exactly when the edges have no cycle |
| SeededStore.SeededConsistentExactly | prisma/seed.ts:95-116 | whatever users and rows the database lets the seed insert for a new tenant, every tenant's table is the closure of its stored managers exactly when each manager is a listed user |
| SeededStore.ManagersFirstAcyclic | prisma/seed.ts:83-93 | a list in which every manager comes before its reports has no cycle |
| SeededStore.ShippedInv | prisma/seed.ts:83-230 | the two shipped organizations, inserted one after the other, meet every invariant histories start from |
| CacheKeys.PermissionsKeyInjective | src/common/cache/cache.keys.ts:11 | colon-free tenants: equal permission keys mean equal tenant and user |
| CacheKeys.PoliciesKeyInjective | src/common/cache/cache.keys.ts:13-14 | colon-free tenants and actions: equal policy keys mean equal tenant, action and resource type |
| CacheKeys.PoliciesKeySharedExactly | src/common/cache/cache.keys.ts:13-14 | a policy key is shared within a tenant exactly when action or resource type holds a colon |
| CacheKeys.PermissionsPrefixExact | src/common/cache/cache.keys.ts:12 | the permissions prefix of a tenant covers that tenant's permission keys and no other tenant's |
| CacheKeys.PoliciesPrefixExact | src/common/cache/cache.keys.ts:15 | the policies prefix of a tenant covers that tenant's policy keys and no other tenant's |
| CacheService.CacheService.Get | src/common/cache/cache.service.ts:24-37 | finds a value exactly when the entry has not expired, and drops the entry it finds expired |
| CacheService.CacheService.DelByPrefix | src/common/cache/cache.service.ts:47-54 | removes every key with the prefix and keeps every other entry |
| CacheService.CacheService.Wrap | src/common/cache/cache.service.ts:56-65 | serves a live value or runs a loader that reads the state of the call, stores and serves; a loaded value is then found until its expiry |
| CacheCoherence.RemovesExactly | src/common/cache/cache.service.ts:43-54 | with colon-free tenant ids the deletions reach the facts the write is meant to invalidate and no other |
| CacheCoherence.ColonFreeApart | src/common/cache/cache.keys.ts:10-16 | colon-free tenant ids and actions keep any set of keys apart as strings |
| CacheCoherence.FillSafeExactly | src/common/cache/cache.service.ts:56-65 | filling the cache with what the database says leaves every lookup of a set of keys true, in every database and at any time, exactly when no two of the keys share a string |
| CacheCoherence.WriteServesTrueExactly | src/common/cache/cache.service.ts:24-54 | at any time of lookup a write is safe for the readers of a set of keys exactly when its deletions reach each of the keys whose fact it changes |
| CacheCoherence.GrantServesTrueExactly | src/permissions/permissions.service.ts:32-40 | a permission grant is safe for all readers, the holders of the role among them, exactly when no user of another tenant gains the name |
| Writes.AddPolicyEffect | src/policies/policies.repository.ts:28-36 | a new policy joins exactly the queries it applies to |
| Writes.GrantRoleEffect | src/roles/roles.service.ts:28-43 | a role assignment adds exactly the names of the role to the user's names |
| Provisioning.ProvisioningGivesExactly | src/permissions/permissions.service.ts:18-42 | creating a role and a permission, granting the one to the other and assigning the role adds exactly the one name to exactly the one user |
| Provisioning.ProvisionedPermission | src/authorization/evaluators/rbac.evaluator.ts:13-28 | afterwards the user holds the permission for a request exactly when it did before or the name is the action's or a wildcard that covers it |
| Writes.InvalidationCoversExactly | src/permissions/permissions.service.ts:32-40 | every fact a write changes is invalidated exactly when the write gives no user of another tenant a new name; only a permission grant can |
| CrossTenantGrant.DecisionChanges | src/permissions/permissions.service.ts:27-42 | on a named consistent database the code accepts a grant of one tenant that turns a decision of another from DENY to ALLOW and leaves that subject's cache entry in place |
| InterleavedCache.BoundedStaleness | src/common/cache/cache.service.ts:56-65 | in every interleaving, whatever keys share a string, a served value was true of a key of that string when its reader loaded it, and is served less than one lifetime after that reader's next fill |
| InterleavedCache.BoundedStalenessExactly | src/common/cache/cache.keys.ts:10-16 | in every interleaving of reads of a set of keys each is served a value loaded for its own key, under the same bound, exactly when no two of the keys share a string |
| InterleavedCache.RivalServed | src/common/cache/cache.keys.ts:13-14 | for any two keys of one string a run of two reads in which the second is served what was loaded for the first |
| InterleavedCache.NeverOvergrants | src/permissions/permissions.repository.ts:38-61 | in every interleaving of reads of keys apart, served permission names grant only what the user's current names grant, and served policies are all in force |
| InterleavedCache.FreshAfterInvalidationExactly | src/common/cache/cache.service.ts:47-65 | after a deletion of a key's string its reads are current, until the next write or a fill for another key of the string, exactly when no overtaken load of the key is in flight |
| InterleavedCache.FreshAmongApartExactly | src/common/cache/cache.service.ts:47-65 | among reads of keys apart they are current until the next write exactly when no overtaken load of the key is in flight |
| InterleavedCache.QuietInvalidation | src/roles/roles.service.ts:39-41 | among reads of keys apart, with no load of the key in flight across the invalidation, every later read is current until the next write |
| InterleavedCache.OvertakenLoadServesStale | src/common/cache/cache.service.ts:62-64 | a run in which a load overtaken by a write leaves a stale value that a later read is served |
| PolicyEngine.MatchesExactly | src/authorization/evaluators/policy.evaluator.ts:74-101 | a policy matches exactly when the request fails none of the eight clauses, each stated on the facts it reads; otherwise the first one failed is reported |
| PolicyEngine.ReadsOnlyItsClauses | src/authorization/evaluators/abac.evaluator.ts:20-80 | requests that agree on what the clauses present read match alike, whatever their other facts |
| PolicyEngine.DepartmentDecides | src/authorization/evaluators/abac.evaluator.ts:26-34 | with departments listed, and all else passed, the department alone decides; none or an empty one fails |
| PolicyEngine.LocationDecides | src/authorization/evaluators/abac.evaluator.ts:36-43 | the same for locations |
| PolicyEngine.StatusDecides | src/authorization/evaluators/abac.evaluator.ts:45-52 | the same for employment statuses |
| PolicyEngine.ClearanceOrder | src/common/utils/clearance.util.ts:1-29 | each of the five levels meets itself and those below it |
| PolicyEngine.Evaluate | src/authorization/evaluators/policy.evaluator.ts:33-72 | a passed DENY denies, otherwise a passed ALLOW allows, otherwise nothing does; the names given are those of the policies passed, and the line of each policy tells whether it was passed and where it failed first |
| PolicyEngine.FoldedConcat | src/authorization/evaluators/policy.evaluator.ts:33-72 | evaluating two lists in sequence joins their verdicts in default deny < allow < explicit deny |
| PolicyEngine.FoldedIsCombined | src/authorization/evaluators/policy.evaluator.ts:33-72 | the verdict of a list depends on its set of policies only |
| PolicyEngine.MatchedNamesPermutation | src/authorization/evaluators/policy.evaluator.ts:34-46 | every permutation of the list reports the same names the same number of times |
| PolicyEngine.EffectPermutation | src/policies/policies.repository.ts:28-36 | every permutation of the list, ties in priority included, has the same verdict |
| AccessSpec.ReportedNames | src/authorization/evaluators/policy.evaluator.ts:48-65 | the names reported are the matching policies' names, each once |
| AccessSpec.PermissionByRole | src/authorization/evaluators/rbac.evaluator.ts:13-28 | a permission is held exactly through a role that carries the action, the global wildcard or the resource type's |
| AccessSpec.RefusedFor | src/authorization/authorization.service.ts:82-126 | which validation turns a request down, by tenant, membership, status and resource, and when none does |
| AuthorizationService.AuthorizationService.EvaluateRbac | src/authorization/evaluators/rbac.evaluator.ts:13-28 | granted exactly when a listed name is "*", the action or the resource type's wildcard, and one trace line is added |
| AuthorizationService.AuthorizationService.ResolveRelationship | src/authorization/evaluators/rebac.evaluator.ts:18-35 | unrelated without an owner, else the relationship of the recursive walk |
| AuthorizationService.AuthorizationService.CheckAccess | src/authorization/authorization.service.ts:77-234 | effect and matched names are those the database alone determines, reason and trace follow from the applicable policies by priority, exactly one audit row with the same contents is appended, and the cache stays true for every key in use |
| AuthorizationService.DeniedTraceTells | src/authorization/authorization.service.ts:84-126 | the trace of a request turned down ends with the reason and holds exactly the validations passed |
| AuthorizationService.DecidedTraceTells | src/authorization/authorization.service.ts:87-166 | the trace of a validated request holds the three validations, the permission, the relationship and the policy count in their places, and a true line for each applicable policy |
| PermissionServices.PermissionsRepository.LoadNames | src/permissions/permissions.repository.ts:44-57 | the nested loops list, each once, the names carried by the roles the user holds |
| PermissionServices.PermissionsRepository.PermissionNamesForUser | src/permissions/permissions.repository.ts:38-61 | the result is the database's; a live entry is handed out, otherwise the names are stored for 30 seconds; the cache stays true for every key in use |
| PermissionServices.PermissionsService.AssignPermission | src/permissions/permissions.service.ts:27-42 | the join row is written and the tenant's permission entries dropped exactly when the permission is the tenant's and the role exists; the two errors are told apart |
| PermissionServices.RolesService.AssignRole | src/roles/roles.service.ts:28-43 | exactly when role and user are the tenant's the join row is there and the one user's entry dropped; the two errors are told apart |
| PermissionServices.RolesService.Create | src/roles/roles.service.ts:20-26 | the role is written exactly when the tenant has no role of that name |
| PermissionServices.PermissionsService.Create | src/permissions/permissions.service.ts:18-25 | the permission is written exactly when the tenant has none of that name |
| PolicyServices.PoliciesRepository.FindApplicable | src/policies/policies.repository.ts:21-39 | the result is, by rising priority, exactly the stored policies of the tenant that are enabled and name the action and the resource type or a wildcard; cached for 30 seconds |
| PolicyServices.PoliciesService.Create | src/policies/policies.service.ts:18-33 | exactly when the name is new, a row that says what the input says, with its three defaults, is stored and the tenant's policy entries dropped |
| UserServices.UsersService.Create | src/users/users.service.ts:21-45 | a taken e-mail refuses the user; otherwise user row, self row and optional manager in sequence, and a refused manager leaves the user in place |
| UserServices.UsersService.AssignManager | src/users/users.service.ts:47-63 | the hierarchy is asked only when both users are the tenant's, and each refusal is reported as such |
| UserServices.UsersService.Update | src/users/users.service.ts:65-75 | exactly when the user is the tenant's and no other user of the tenant has the new e-mail, each field given is stored; absent fields, the manager and all other rows stay |
| SystemRuns.ReachableClosure | src/hierarchy/hierarchy.service.ts:28-107 | in every state reachable from a consistent one a row is there exactly for the manager hops it states, every user is registered in its tenant, and no organization has a cycle |
| SystemRuns.ReachableUserClosure | src/users/users.service.ts:21-45 | there, for every user of a tenant, rows and manager hops are the same thing |
| SystemRuns.ReachableSize | prisma/schema.prisma:280-297 | in every such state the table's size is the sum of chain lengths plus one |
| SystemRuns.PathIndependence | src/hierarchy/hierarchy.service.ts:39-107 | two histories that end with the same managers and registered users end with the same table |
| SystemRuns.RunKeeps | src/users/users.service.ts:21-63 | every history whose generated ids are new keeps all invariants |
| SystemRuns.GrantsHurtExactly | src/authorization/evaluators/policy.evaluator.ts:93-98 | a sequence of role and permission grants turns an ALLOW into DENY exactly when the subject ends up with the permission and an applicable DENY policy that asks for it matches |
| SystemRuns.GrantingIsMonotone | src/authorization/evaluators/policy.evaluator.ts:93-98 | no sequence of grants turns ALLOW into DENY where no applicable DENY policy asks for the permission |
| SystemRuns.RaisingClearanceExactly | src/users/users.service.ts:65-75 | an update that raises the subject's clearance turns ALLOW into DENY exactly when an applicable DENY policy that reads clearance matches at the new level |
| SystemRuns.SuspendingDenies | src/authorization/authorization.service.ts:100-108 | a subject set to any status but ACTIVE is denied everything, and setting it back restores the store |
| SystemRuns.NewPolicyDecides | src/policies/policies.service.ts:18-33 | a new policy that is disabled, of another tenant, action or type changes no decision; any other joins its verdict to those before it |
| SalaryPolicy.SalaryShownExactly | prisma/fixtures/tenant-policies.fixture.ts:37-60 | with the shipped policies a salary is shown exactly to the owner and the owner's manager chain, with permission, within CONFIDENTIAL and the subject's clearance |
| SalaryPolicy.EmployeeSalaryShownExactly | src/authorization/resource.repository.ts:40-52 | for an employee without a resource row it is shown exactly to the employee and the chain above, active in an active tenant, with permission and clearance of CONFIDENTIAL |
| SalaryPolicy.PerformanceShownExactly | prisma/fixtures/tenant-policies.fixture.ts:23-36 | performance is shown exactly as the salary is, without the explicit denial |
| SalaryPolicy.PayrollShownExactly | prisma/fixtures/tenant-policies.fixture.ts:61-74 | payroll is shown exactly to members of the HR department with permission, within CONFIDENTIAL and their clearance |
| SalaryPolicy.ExpenseApprovedExactly | prisma/fixtures/tenant-policies.fixture.ts:75-84 | expenses are approved exactly by members of the finance department with permission |
| NonInterference.ViewDecides | src/common/repositories/base-tenant.repository.ts:31-54 | a decision depends only on the tenant's own rows and the names its roles carry |
| NonInterference.OtherStepExactly | src/common/repositories/base-tenant.repository.ts:60-80 | an operation of another tenant leaves the view alone exactly when it does not grant one of the tenant's roles a name the role lacked |
| NonInterference.TenantsDoNotInterfere | src/common/repositories/base-tenant.repository.ts:32-80 | two runs with the same operations of a tenant, interleaved with anything by others that goes unnoticed in that exact sense, leave it the same view and the same answers, as long as the ids its operations name exist alike in the states they meet |
| NonInterference.OwnStepExactly | src/users/users.service.ts:36-40 | the tenant's own operation keeps two systems' agreement on it exactly when the manager, user or role it names without a lookup in the tenant exists in both or in neither, or does not matter |
| NonInterference.GuardedTenantsDoNotInterfere | src/permissions/permissions.service.ts:32 | a tenant whose operations name its own ids, next to tenants that grant permissions to their own roles, gets the same view and answers whatever the others do |
| History.Iam.Replay | src/common/cache/cache.service.ts:9-17 | for every history and every clock, under the two exact conditions of FillSafeExactly and WriteServesTrueExactly on the keys its checks use, the cached services end in the state, and give the answers, of the engine without a cache, with one audit row per check |
| History.GuardedHistory | src/permissions/permissions.service.ts:32 | grants to roles of the granting tenant, in the state each meets, and colon-free tenants and actions in checks give both conditions of the replay |

## Left out

- Replay: asks that the keys its checks use do not meet as strings and that each write deletes those of them it changes; FillSafeExactly and WriteServesTrueExactly prove that a cache can mislead otherwise, and GuardedHistory gives both from checks made beforehand.
- Wrap: runs get, load and set in one step; what may happen between them is the subject of InterleavedCache, and the repositories, whose loaders are queries, spell the three out.
- UsersService.Create: the foreign keys to tenant and department, which could refuse the row, are not modelled; the tenant is the authenticated caller's.
- UsersService.Update: the foreign key to the department, which could refuse the change, is not modelled.
- Transactions of the hierarchy run one at a time: the code sets no isolation level, and concurrent moves are not part of this model.
- Interleaving covers the cache; a check reads the rest of the database at one instant. A commit there is a grant or a policy; the other operations change no cached fact (CreationCoherent).
- Texts of reasons and trace lines are tags; latency, metrics, logging and correlation ids are not modelled.
- Subject and resource attributes, role names and the resource's department are carried by the code but read by no evaluator.
- Passwords, designations and descriptions of roles and permissions are not modelled: no decision reads them.
- Seeded roles, grants, policies and resources: only the organizations of the seed script are inserted here.
- The rest of the tenant-scoped repository base (`findMany`, `count`, `deleteById`): no modelled service calls them; its scoped lookup by id is `Tables.InTenant`, `RoleOf` and `PermissionOf`.
- Guards, login, tokens, API keys, departments, tenant and service-identity administration, pagination and the rest of the seed script would only add easy members.
