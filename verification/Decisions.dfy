/** What an access check reports: its reason, its trace, and the row it leaves in
    the audit log.  Texts are kept as tags. */
module Decisions {
  import opened Domain

  datatype Request = Request(
    tenantId: Id,
    subjectUserId: Id,
    action: string,
    resourceType: string,
    resourceId: string)

  /** The first clause of a policy that a request fails. */
  datatype Mismatch =
    | WrongRelationship
    | WrongDepartment
    | WrongLocation
    | WrongEmploymentStatus
    | ClearanceTooLow
    | SensitivityAboveCeiling
    | ClearanceBelowSensitivity
    | MissingPermission

  datatype Reason =
    | TenantInvalid
    | SubjectMissing
    | SubjectNotActive(status: EmploymentStatus)
    | ResourceMissing
    | ExplicitDeny(names: seq<string>)
    | AllowedBy(names: seq<string>)
    | NoMatchingAllow

  datatype TraceEvent =
    | TenantValidated
    | SubjectValidated
    | ResourceValidated
    | DeniedBecause(reason: Reason)
    | RbacChecked(granted: bool)
    | AbacFactsNoted
    | NoOwner
    | RelationshipResolved(relationship: Relationship)
    | PoliciesLoaded(count: nat)
    | PolicyMatched(name: string, effect: Effect)
    | PolicySkipped(name: string, effect: Effect, why: Mismatch)

  /** The decision handed back to the caller. */
  datatype Decision = Decision(
    decisionId: nat,
    allowed: bool,
    effect: Effect,
    reason: Reason,
    matchedPolicies: seq<string>,
    trace: seq<TraceEvent>)

  datatype AuditRow = AuditRow(
    request: Request,
    decisionId: nat,
    decision: Effect,
    reason: Reason,
    matchedPolicies: seq<string>,
    trace: seq<TraceEvent>)
}
