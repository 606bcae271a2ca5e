/** The vocabulary shared by every other module: identifiers, enumerations and
    the few JavaScript conventions the services rely on. */
module Domain {

  type Id = string

  datatype Option<+T> = None | Some(value: T)

  /** `if (x)` on a nullable string: null and the empty string are both falsy. */
  predicate Truthy(o: Option<string>) {
    o.Some? && o.value != ""
  }

  datatype Clearance = Public | Internal | Confidential | Secret | TopSecret

  datatype EmploymentStatus = Active | OnLeave | Suspended | Terminated

  datatype TenantStatus = TenantActive | TenantSuspended | TenantDisabled

  datatype Effect = Allow | Deny

  /** How a subject relates to the owner of a resource, strongest first. */
  datatype Relationship = Self | DirectManager | Ancestor | Sibling | Unrelated
}
