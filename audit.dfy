/**
 * The audit log the services write to: one entry per `auditSvc.LogChange(table, id, action,
 * old, new)` call, with `nil` for a missing old or new value. How the audit service stores
 * an entry is not part of this model.
 */
module Audit {
  import opened Wrappers

  datatype Action = ActionCreate | ActionUpdate | ActionDelete

  datatype AuditEntry<T> = AuditEntry(entityId: int, action: Action, oldValue: Option<T>, newValue: Option<T>)
}
