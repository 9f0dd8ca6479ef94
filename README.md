# Runtime-permission request library: a Dafny model

This project models the request logic of the `bk.app.permissions` library
(`Permissions.kt`): an orchestrator (`Permissions`) checks which requested permission names
the host has not granted and reports grant at once, or hands the missing names to an
invisible stub activity (`StubActivity`). The stub applies a rationale policy, asks the host
for the permission dialog, a rationale screen or the settings screen, turns the host's
answers into one grant or deny report, and finishes. A process-wide guard (a mutex) keeps
one stub session at a time; it is released when the stub activity is destroyed while
finishing, or at once when starting the stub throws.

The host is replaced by oracles, bundled per handler call in `Events.Env`: which names are
granted, for which names the host would show a rationale, whether the orchestrator's weak
context is still alive, whether the platform is at API level M or above, and whether a
rationale screen is installed. Everything the library tells its caller or asks of the host
is appended to one log (`Process.log`): `Report(Grant)`, `Report(Deny(names))`, starting the
stub, requesting the dialog, showing the rationale or settings screen, and `finish()`.

Layout:

- `flags.dfy` (`Flags`): the rationale flags (NEVER=0, SKIP=1, BLOCKED_ONLY=2, ALWAYS=3,
  default BLOCKED_ONLY), the request codes, and the host values they are compared with.
- `filters.dfy` (`Filters`): Kotlin's `filter` and `filterIndexed` over names, with their
  exact contents and order.
- `events.dfy` (`Events`): outcomes, log entries, exceptions, the oracle bundle.
- `steps.dfy` (`Steps`, `StepFacts`): each handler as a function from what it reads to the
  log entries it appends and how it completes; the lemmas say how many reports each path
  makes (0 or 1), which names it reports, and which paths report nothing.
- `lifecycle.dfy` (`Lifecycle`): the classes `Process` (mutex, `paramHelper`, coroutines not
  yet run, log), `Permissions` and `StubActivity`, whose methods mutate their fields and
  are proved to append exactly what the step functions say. `StubActivity.Valid()` keeps
  "at most one report per activity, and none before it finishes".
- `scenarios.dfy` (`Scenarios`): whole sessions run through the classes.

The lifecycle follows the code as written. Where descriptions of the library differ from
the code, the model follows the code:

- A request does not always end in exactly one grant or deny. These paths finish with no
  report (`StepFacts.CreateStepSilentIff`, `StepFacts.ActivityResultOutcomes`,
  `StepFacts.PermissionsResultWellFormed`): the rationale branch with no rationale screen
  installed; a stub restarted after a configuration change (it recovers its helper and then
  reaches `finish()` at line 146); a launch intent without extras; a rationale screen
  returning anything but OK or "settings"; an activity result with a request code that is
  neither the rationale's nor the settings'; a permission result with another request code.
  A failed launch and a vetoing creation hook report nothing either.
- With the default flag, a name the host shows no rationale for is "blocked", so the stub
  takes the rationale branch; it does not request the dialog directly
  (`Scenarios.BlockedWithoutRationaleScreen`).
- Returning from the settings screen re-checks without requesting, so it reports grant or
  deny, never a second dialog.

## Model

| member | source | states |
|---|---|---|
| `Filters.Filter` | app/permissions/src/main/java/bk/app/permissions/Permissions.kt:46-50 | the filtered list holds exactly the names that satisfy the predicate and is no longer than the input |
| `Filters.FilterOrdered` | app/permissions/src/main/java/bk/app/permissions/Permissions.kt:46-50 | the filter keeps the original order (its result is a subsequence of the input) |
| `Filters.FilterCount` | app/permissions/src/main/java/bk/app/permissions/Permissions.kt:46-50 | every occurrence of a kept name survives and no dropped name does |
| `Filters.FilterShorter` | app/permissions/src/main/java/bk/app/permissions/Permissions.kt:121-124 | the filtered list is shorter exactly when some name fails the predicate |
| `Filters.FilterIndexed` | app/permissions/src/main/java/bk/app/permissions/Permissions.kt:182-185 | the denied list is empty exactly when every name's result is PERMISSION_GRANTED; it needs the results to cover the names |
| `Filters.FilterIndexedMember` | app/permissions/src/main/java/bk/app/permissions/Permissions.kt:182-185 | a name is denied exactly when it stands at an index whose result is not granted |
| `Filters.FilterIndexedCount` | app/permissions/src/main/java/bk/app/permissions/Permissions.kt:182-185 | a name appears in the denied list once for every index that holds it with a non-granted result |
| `Filters.FilterIndexedOrdered` | app/permissions/src/main/java/bk/app/permissions/Permissions.kt:182-185 | the denied list keeps the order of the names |
| `Filters.FilterIndexedPositions` | app/permissions/src/main/java/bk/app/permissions/Permissions.kt:182-185 | the denied list is the names at the non-granted indexes, one entry per such index, taken in increasing index order |
| `Filters.FilterIndexedAgrees` | app/permissions/src/main/java/bk/app/permissions/Permissions.kt:182-185 | when the results match a predicate name by name, the indexed filter equals the plain filter |
| `Steps.NotGranted` | app/permissions/src/main/java/bk/app/permissions/Permissions.kt:46-50 | computes the requested names the host does not report as granted, in order; `Steps.NotGrantedExact` states its contents |
| `Steps.WithRationale` | app/permissions/src/main/java/bk/app/permissions/Permissions.kt:121-123 | computes the stub names for which the host would show a rationale |
| `Steps.Blocked` | app/permissions/src/main/java/bk/app/permissions/Permissions.kt:124 | computes `blocked`: fewer names with a rationale than names; `Steps.BlockedIff` states when it holds |
| `Steps.CheckStep` | app/permissions/src/main/java/bk/app/permissions/Permissions.kt:43-59 | computes what `checkPermissions` does: throw for a dead context, grant, a request for the denied names, or deny without request; `Steps.CheckStepSpec` states when each is taken |
| `Steps.Policy` | app/permissions/src/main/java/bk/app/permissions/Permissions.kt:126-142 | computes the action of the flag `when`: rationale, deny or request; `Steps.PolicyTable` states the table |
| `Steps.RequestThenFinish` | app/permissions/src/main/java/bk/app/permissions/Permissions.kt:212-220 | computes `requestPermissions` (lines 212-220) together with its caller at lines 137-141: the dialog at M or above, else deny and `finish()`, or a throw for an unassigned helper; `StepFacts.RequestThenFinishWellFormed` states it |
| `Steps.FreshCreateStep` | app/permissions/src/main/java/bk/app/permissions/Permissions.kt:116-146 | computes the entries of `onCreate` once the extras are read, as written; `StepFacts.FreshCreateOutcomes` states them |
| `Steps.CreateStep` | app/permissions/src/main/java/bk/app/permissions/Permissions.kt:99-147 | computes the entries of the whole `onCreate`: hook veto, restart, missing helper, missing extras, fresh start; `StepFacts.CreateStepSilentIff` and `StepFacts.CreateStepWellFormed` state them |
| `Steps.ActivityResultStep` | app/permissions/src/main/java/bk/app/permissions/Permissions.kt:149-170 | computes the entries of `onActivityResult` by request and result code; `StepFacts.ActivityResultOutcomes` states them |
| `Steps.ResultOutcome` | app/permissions/src/main/java/bk/app/permissions/Permissions.kt:178-192 | computes the report of a permission result: the stub list for empty results, the indexed filter otherwise; `StepFacts.ResultOutcomeSpec` states it |
| `Steps.PermissionsResultStep` | app/permissions/src/main/java/bk/app/permissions/Permissions.kt:172-196 | computes the entries of `onRequestPermissionsResult`: `finish()` only for a foreign code, a throw for unassigned state, else one report and `finish()`; `StepFacts.PermissionsResultWellFormed` states them |
| `StepFacts.FreshCreateStepIntended` | app/permissions/src/main/java/bk/app/permissions/Permissions.kt:126-146 | computes the corrected policy step, which requests the permissions when the rationale branch has no rationale screen; `StepFacts.IntendedCreateNeverSilent` states it |
| `Steps.BlockedIff` | app/permissions/src/main/java/bk/app/permissions/Permissions.kt:121-124 | `blocked` holds exactly when some stub name has no rationale from the host |
| `Steps.NotGrantedExact` | app/permissions/src/main/java/bk/app/permissions/Permissions.kt:46-50 | the denied names are exactly the requested names not granted, in request order and with their multiplicity |
| `Steps.CheckStepSpec` | app/permissions/src/main/java/bk/app/permissions/Permissions.kt:43-59 | a dead context throws with no report; grant exactly when every name is granted; a request only when `requestNeeded`, and only for the exact non-granted subset; deny with that subset otherwise; no request when `requestNeeded` is false |
| `Steps.PolicyTable` | app/permissions/src/main/java/bk/app/permissions/Permissions.kt:126-142 | ALWAYS shows the rationale; BLOCKED_ONLY shows it iff blocked, else requests; NEVER denies iff blocked, else requests; any other flag requests; deny only when blocked |
| `StepFacts.RequestThenFinishWellFormed` | app/permissions/src/main/java/bk/app/permissions/Permissions.kt:212-220 | requesting reports at most once (deny below M, then finish) and is never silent |
| `StepFacts.FreshCreateWellFormed` | app/permissions/src/main/java/bk/app/permissions/Permissions.kt:121-146 | the policy step of `onCreate` reports at most once and only as it finishes |
| `StepFacts.CreateStepWellFormed` | app/permissions/src/main/java/bk/app/permissions/Permissions.kt:99-147 | every `onCreate` path reports at most once and only as it finishes |
| `StepFacts.FreshCreateOutcomes` | app/permissions/src/main/java/bk/app/permissions/Permissions.kt:121-146 | `onCreate` reports only deny of the full stub list, exactly for NEVER+blocked or a request below M; requests the dialog for the full list exactly for a request at M or above; is silent exactly for the rationale branch with no rationale screen |
| `StepFacts.NeverBlockedDeniesWithoutDialog` | app/permissions/src/main/java/bk/app/permissions/Permissions.kt:133-135 | NEVER with a blocked name denies the full list and finishes without asking for the dialog |
| `StepFacts.CreateStepSilentIff` | app/permissions/src/main/java/bk/app/permissions/Permissions.kt:104-146 | the exact list of `onCreate` paths that finish without a report: restart after a configuration change, no extras, rationale branch without a rationale screen |
| `StepFacts.HookVetoKeepsActivity` | app/permissions/src/main/java/bk/app/permissions/Permissions.kt:104-106 | a vetoing creation hook returns without reporting and without `finish()` |
| `StepFacts.ActivityResultWellFormed` | app/permissions/src/main/java/bk/app/permissions/Permissions.kt:149-170 | every `onActivityResult` path reports at most once and only as it finishes |
| `StepFacts.ActivityResultOutcomes` | app/permissions/src/main/java/bk/app/permissions/Permissions.kt:149-170 | "settings" opens the settings screen without finishing; OK requests the stub's names; the settings return reports what a check without request reports; the dialog is requested only after OK; silent exactly for unknown request codes and rationale codes other than OK and "settings" |
| `StepFacts.PermissionsResultWellFormed` | app/permissions/src/main/java/bk/app/permissions/Permissions.kt:172-196 | the permission result reports at most once and only as it finishes; it is silent exactly for a foreign request code |
| `StepFacts.ResultOutcomeSpec` | app/permissions/src/main/java/bk/app/permissions/Permissions.kt:177-192 | empty results deny the stub's full list (grant if it is empty); otherwise grant iff every result is granted, else deny the names at exactly the non-granted indexes, taken in increasing index order (so each name as many times as it stands at a non-granted index) |
| `StepFacts.ResultAgreesWithRecheck` | app/permissions/src/main/java/bk/app/permissions/Permissions.kt:178-192 | when the results match the host's grant state, the result handler reports what `checkPermissions(names, false)` reports |
| `StepFacts.SilentWithoutRationaleScreen` | app/permissions/src/main/java/bk/app/permissions/Permissions.kt:126-146 | default flag, no rationale screen, one name without rationale: the activity finishes and nothing is reported |
| `StepFacts.IntendedCreateNeverSilent` | app/permissions/src/main/java/bk/app/permissions/Permissions.kt:126-146 | with the fallback to requesting, no path of the policy step finishes silently, each reports at most once, and nothing changes when a rationale screen is installed |
| `Lifecycle.Process.constructor` | app/permissions/src/main/java/bk/app/permissions/Permissions.kt:257 | the process starts with the guard free, no helper published, nothing waiting and an empty log |
| `Lifecycle.Process.RunLaunch` | app/permissions/src/main/java/bk/app/permissions/Permissions.kt:61-76 | the coroutine takes the guard, publishes its helper before starting the stub with the denied names and the helper's current flag, and gives the guard back, with nothing logged, when starting throws |
| `Lifecycle.Process.ReleaseMutex` | app/permissions/src/main/java/bk/app/permissions/Permissions.kt:288-290 | the guard is free afterwards; releasing a free guard throws |
| `Lifecycle.Permissions.From` | app/permissions/src/main/java/bk/app/permissions/Permissions.kt:285-286 | a new orchestrator holds the names and the default flag |
| `Lifecycle.Permissions.Check` | app/permissions/src/main/java/bk/app/permissions/Permissions.kt:38-41 | `check` stores the flag and performs the check with `requestNeeded = true` |
| `Lifecycle.Permissions.CheckPermissions` | app/permissions/src/main/java/bk/app/permissions/Permissions.kt:43-59 | the check appends exactly the report of `CheckStep` or launches exactly one coroutine for the denied names, and throws with nothing appended when the context is gone |
| `Lifecycle.Permissions.Request` | app/permissions/src/main/java/bk/app/permissions/Permissions.kt:61-62 | `request` only launches the coroutine; the guard is untouched until it runs |
| `Lifecycle.Permissions.GrantCallback` | app/permissions/src/main/java/bk/app/permissions/Permissions.kt:79-82 | one grant report is appended |
| `Lifecycle.Permissions.DenyCallback` | app/permissions/src/main/java/bk/app/permissions/Permissions.kt:84-87 | one deny report with exactly the given names is appended |
| `Lifecycle.StubActivity.constructor` | app/permissions/src/main/java/bk/app/permissions/Permissions.kt:95-97 | a new stub has no helper or names yet and the default flag |
| `Lifecycle.StubActivity.OnCreate` | app/permissions/src/main/java/bk/app/permissions/Permissions.kt:99-147 | `onCreate` appends exactly the entries of `CreateStep`, finishes exactly when they end in `finish()`, and assigns the helper, names and flag as the code does |
| `Lifecycle.StubActivity.CreateFromExtras` | app/permissions/src/main/java/bk/app/permissions/Permissions.kt:116-146 | reading the extras and applying the policy appends exactly the entries of `FreshCreateStep` |
| `Lifecycle.StubActivity.RequestThenFinishIfDenied` | app/permissions/src/main/java/bk/app/permissions/Permissions.kt:137-141 | the caller of `requestPermissions` returns when the dialog was requested and finishes otherwise |
| `Lifecycle.StubActivity.OnActivityResult` | app/permissions/src/main/java/bk/app/permissions/Permissions.kt:149-170 | appends exactly the entries of `ActivityResultStep`, keeps the per-activity report invariant, and never launches a new request |
| `Lifecycle.StubActivity.OnRationaleResult` | app/permissions/src/main/java/bk/app/permissions/Permissions.kt:151-163 | "settings" starts the settings screen without finishing; OK requests the stub's names (finishing only if that reported deny below M); any other code finishes with nothing reported |
| `Lifecycle.StubActivity.OnSettingsResult` | app/permissions/src/main/java/bk/app/permissions/Permissions.kt:164-166 | the settings return re-checks with `requestNeeded = false`: a report and `finish()`, or a throw when the context is gone |
| `Lifecycle.StubActivity.OnRequestPermissionsResult` | app/permissions/src/main/java/bk/app/permissions/Permissions.kt:172-196 | appends exactly the entries of `PermissionsResultStep` and keeps the per-activity report invariant |
| `Lifecycle.StubActivity.ReportResults` | app/permissions/src/main/java/bk/app/permissions/Permissions.kt:177-195 | for the stub's own request code: the denied list is the stub's list when there are no results and the non-granted names otherwise; one grant or deny report, then `finish()` |
| `Lifecycle.StubActivity.OnDestroy` | app/permissions/src/main/java/bk/app/permissions/Permissions.kt:200-210 | the guard is released exactly when the activity is finishing, whatever happened before; releasing a free guard throws |
| `Lifecycle.StubActivity.RequestPermissions` | app/permissions/src/main/java/bk/app/permissions/Permissions.kt:212-220 | at M or above the dialog is requested for the given names and true is returned; below M those names are denied and false is returned |
| `Lifecycle.StubActivity.ShowRationaleScreen` | app/permissions/src/main/java/bk/app/permissions/Permissions.kt:223-231 | `showRationale(names, blocked)` is called and starts the installed rationale intent exactly when one is installed, and the result says so; the started intent does not carry the names or the flag |
| `Lifecycle.StubActivity.ShowSettings` | app/permissions/src/main/java/bk/app/permissions/Permissions.kt:233-243 | the settings screen is started |
| `Lifecycle.StubActivity.Finish` | app/permissions/src/main/java/bk/app/permissions/Permissions.kt:146 | the activity is finishing and `finish()` is logged |
| `Scenarios.BlockedWithoutRationaleScreen` | app/permissions/src/main/java/bk/app/permissions/Permissions.kt:121-146 | default flag, no rationale available or installed: the stub starts and finishes with no dialog and no report, and the guard is released |
| `Scenarios.DialogDenied` | app/permissions/src/main/java/bk/app/permissions/Permissions.kt:172-196 | a not-blocked name goes straight to the dialog; a denied result reports deny of exactly that name once; the guard is released |
| `Scenarios.RationaleThenDialog` | app/permissions/src/main/java/bk/app/permissions/Permissions.kt:149-161 | with ALWAYS and one of two names granted, the rationale screen and then the dialog concern only the missing name |
| `Scenarios.SettingsThenGranted` | app/permissions/src/main/java/bk/app/permissions/Permissions.kt:149-170 | settings then return with the name granted: one grant report, no new request, guard released |
| `Scenarios.SecondRequestWaits` | app/permissions/src/main/java/bk/app/permissions/Permissions.kt:61-76 | a second request's stub starts only after the first stub is destroyed while finishing |
| `Scenarios.AlreadyGrantedTwice` | app/permissions/src/main/java/bk/app/permissions/Permissions.kt:43-56 | two checks of granted names report grant twice without launching anything or taking the guard |
| `Scenarios.LaunchFails` | app/permissions/src/main/java/bk/app/permissions/Permissions.kt:61-76 | a launch that throws releases the guard and reports nothing |

## Left out

- Logging: `Logger.kt` and every `log?.i(...)` call only write to the host's log.
- `ContextExt.kt` and the fluent setters `grant`, `deny`, `rationale` (lines 31-36): they only store callbacks. The log records every report the orchestrator makes; in the code a report whose callback was never set is a no-op.
- The `rationale` callback (line 28): stored but never invoked.
- Lifecycle.Process.RunLaunch: requires the guard free. Waiting on the mutex is not modelled. kotlinx.coroutines' `Mutex.lock(owner)` also throws, rather than waiting, when the same owner already holds the lock, and every request here locks with the same owner; that library is not part of this model.
- Intents, extras and `Bundle` contents, `Uri` and settings navigation, `startActivity` and `startActivityForResult`: host actions appear only as log entries. The rationale screen receives the original intent rather than the clone carrying the extras (lines 226-229); the model does not track intent contents.
- `WeakReference` collection, `Build.VERSION.SDK_INT`, `checkSelfPermission` and `shouldShowRequestPermissionRationale` are oracle inputs (`Events.Env`).
- The retain-instance mechanism (`onRetainNonConfigurationInstance`, line 198): the retained helper is a parameter of `OnCreate`. The restored activity has no permission list, and a later read of it throws `NotInitialized`.
- What the host does after a handler throws (usually a crash) is not modelled; the handler's `Completion` says that it threw.
- The host does not deliver results to a finishing or destroyed activity and calls `onCreate` once on a new activity: the handlers require this.
- The host hands permission results covering its names: `onRequestPermissionsResult` requires a non-empty result array to be at least as long as the name array.
- `showSettingsIntent` is a constant `null` (line 279), so the default settings intent is always used; the model logs only that settings were shown.

## Findings

| source | as written | input that shows it | evidently intended | confidence | as-written member | corrected member |
|---|---|---|---|---|---|---|
| app/permissions/src/main/java/bk/app/permissions/Permissions.kt:126-146 | when the policy picks the rationale branch and no rationale screen is installed, `showRationale` returns false and `onCreate` calls `finish()`: neither grant nor deny is reported | default flag BLOCKED_ONLY, `showRationaleIntent` left null (its default), one requested name for which the host shows no rationale (the host's answer for a name never requested before) | fall back to requesting the permissions, so that the caller hears grant or deny | medium, not executed | `Steps.FreshCreateStep`, shown silent by `StepFacts.SilentWithoutRationaleScreen` | `StepFacts.FreshCreateStepIntended`, proved never silent by `StepFacts.IntendedCreateNeverSilent` |
