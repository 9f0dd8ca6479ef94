/** Constants of the permission library (the companion objects of `Permissions` and
    `StubActivity`) and the host platform values they are compared against. */
module Flags {

  /** Rationale policy flags (`SHOW_RATIONALE_FLAG_*`). Any other int is accepted by the
      library and behaves like `Skip`. */
  const Never := 0
  const Skip := 1
  const BlockedOnly := 2
  const Always := 3
  const DefaultFlag := BlockedOnly

  /** Request codes the stub activity uses for its own requests. */
  const RequestCodePermissions := 1
  const RequestCodeShowSettings := 2
  const RequestCodeShowRationale := 3

  /** Host platform values: `PackageManager.PERMISSION_GRANTED`, `Activity.RESULT_OK`,
      `Activity.RESULT_FIRST_USER`. */
  const PermissionGranted := 0
  const ResultOk := -1
  const ResultFirstUser := 1

  /** Result code a rationale screen returns to ask for the settings screen. */
  const RationaleResultSettings := ResultFirstUser + 1
}
