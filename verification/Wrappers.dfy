/** Option and Result, and the errors the control plane reports. */
module Wrappers {

  datatype Option<+T> = None | Some(value: T)

  datatype Error =
    | InvalidServiceName | InvalidTier | InvalidLifecycle | InvalidOwnership
    | InvalidTenantName | InvalidSlug | InvalidPlan | InvalidStatus | InvalidQuota
    | IllegalTransition | OnCallRequired | AlreadyRetired | Archived
    | NotFound | NameConflict | VersionConflict | DataCorruption
    | InvalidCursor
    | Unavailable

  datatype Result<+T> = Ok(value: T) | Err(error: Error)
}
