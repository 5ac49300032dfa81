/** The literals and limits that redaction shares with the ledger form. */
module EventLimits {
  const MARKER := "[REDACTED]"
  const TRUNCATION_MARKER := "...[truncated]"
  const BACKEND_PREFIX := "Backend::"
  const MAX_STRING: nat := 4096
}
