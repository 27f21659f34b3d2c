/** Types shared by the storage service and the usage monitor service. */
module ServiceTypes {

  /** A clock reading (`datetime.utcnow()`), passed in by the caller. */
  type Timestamp = int

  /** The status every handler's catch-all re-raises with. */
  const InternalServerError := 500
  /** The status a successful handler answers with. */
  const StatusOk := 200

  /** Why a handler rejected a request: one constructor per message the handlers raise. */
  datatype Reason =
    | FileTooLarge            // "File size exceeds maximum limit of 25MB"
    | FileTypeNotAllowed      // "File type not allowed. ..."
    | UnknownFileType         // "Could not determine file type"
    | BandwidthLimitExceeded  // check_bandwidth: "Daily bandwidth limit exceeded"
    | StorageLimitExceeded    // "Storage limit exceeded. Please free up space before uploading."
    | FileNotFound            // "File not found"
    | FileNotFoundInStorage   // "File not found in storage"
    | InvalidOperationType    // "Invalid operation type. Must be 'upload' or 'download'"
    | DailyLimitExceeded      // usage monitor: "Daily bandwidth limit exceeded"
    | InvalidUsageRecord      // a stored usage document that fails UsageRecord validation
    | RecordNotAMapping       // get_user_storage on first access: `UserStorage(**model)` raises TypeError
    | CursorNotAwaitable      // get_user_alerts: `await` on the synchronous driver's query result raises

  /** The HTTP error a handler answers with. */
  datatype HttpError = HttpError(status: int, reason: Reason)
}
