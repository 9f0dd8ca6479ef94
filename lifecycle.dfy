/** The request lifecycle: the orchestrator object (`Permissions`), the invisible stub
    activity that receives the host's results (`StubActivity`), and the process-wide state
    they share (`Process`). Every callback the caller sees and every action asked of the
    host is appended to `Process.log`. */
module Lifecycle {
  import opened Flags
  import opened Filters
  import opened Events
  import opened Steps
  import opened StepFacts

  /** A coroutine started by `request` that has not yet run: it will take the mutex,
      hand `helper` to the stub activity and start it for `denied`. */
  datatype Launch = Launch(helper: Permissions, denied: seq<string>)

  /** Process-wide state: the companion objects' `mutex` (the guard) and `paramHelper`,
      the coroutines waiting to run, and the log of reports and host actions. */
  class Process {
    var guard: bool
    var paramHelper: Permissions?
    var waiting: seq<Launch>
    var log: seq<Event>

    ghost predicate Valid()
      reads this
    {
      (paramHelper != null ==> paramHelper.process == this) &&
      forall j :: 0 <= j < |waiting| ==> waiting[j].helper.process == this
    }

    constructor ()
      ensures Valid() && !guard && paramHelper == null && waiting == [] && log == []
    {
      guard, paramHelper, waiting, log := false, null, [], [];
    }

    /** The body of the coroutine `request` launched: take the guard, publish the helper,
        start the stub activity with the denied names and the helper's flag as it is now;
        if starting throws, give the guard back and report nothing. The guard must be
        free: waiting for it is not modelled. */
    method RunLaunch(i: nat, startFails: bool)
      requires Valid() && i < |waiting| && !guard
      modifies this
      ensures Valid()
      ensures waiting == old(waiting[..i] + waiting[i + 1..])
      ensures paramHelper == old(waiting[i].helper)
      ensures guard == !startFails
      ensures log == old(log) + if startFails then [] else [StubStarted(old(waiting[i].denied), old(waiting[i].helper.flag))]
    {
      var job := waiting[i];
      waiting := waiting[..i] + waiting[i + 1..];
      guard := true;
      paramHelper := job.helper;
      if startFails {
        guard := false;
      } else {
        log := log + [StubStarted(job.denied, job.helper.flag)];
      }
    }

    /** `releaseMutex`: unlocking a mutex nobody holds throws. */
    method ReleaseMutex() returns (c: Completion)
      modifies this`guard
      ensures !guard
      ensures c == if old(guard) then Normal else Thrown(MutexNotLocked)
    {
      if guard {
        guard := false;
        c := Normal;
      } else {
        c := Thrown(MutexNotLocked);
      }
    }
  }

  /** The orchestrator: the requested names, the rationale flag `check` stores, and a weak
      reference to its context (whether it is alive is part of `Env`). */
  class Permissions {
    const process: Process
    const permissions: seq<string>
    var flag: int

    /** `Permissions.from(context, permissions)`. */
    constructor From(process: Process, permissions: seq<string>)
      ensures this.process == process && this.permissions == permissions && flag == DefaultFlag
    {
      this.process := process;
      this.permissions := permissions;
      flag := DefaultFlag;
    }

    /** The coroutines a check launches: one for the denied names, when it requests. */
    function LaunchesFor(r: CheckResult): seq<Launch>
    {
      if r.Requested? then [Launch(this, r.denied)] else []
    }

    /** `check(flag)`: store the flag, then check every requested name, requesting when
        something is missing. */
    method Check(flag: int, env: Env) returns (c: Completion)
      requires process.Valid()
      modifies this`flag, process`log, process`waiting
      ensures this.flag == flag && process.Valid()
      ensures var r := CheckStep(permissions, true, env);
        c == CheckCompletion(r) &&
        process.log == old(process.log) + CheckEvents(r) &&
        process.waiting == old(process.waiting) + LaunchesFor(r)
    {
      this.flag := flag;
      c := CheckPermissions(permissions, true, env);
    }

    /** `checkPermissions(names, requestNeeded)`: without a live context it throws and
        reports nothing; otherwise it grants when nothing is missing, and else requests
        the missing names or denies them. */
    method CheckPermissions(names: seq<string>, requestNeeded: bool, env: Env) returns (c: Completion)
      requires process.Valid()
      modifies process`log, process`waiting
      ensures process.Valid()
      ensures var r := CheckStep(names, requestNeeded, env);
        c == CheckCompletion(r) &&
        process.log == old(process.log) + CheckEvents(r) &&
        process.waiting == old(process.waiting) + LaunchesFor(r)
    {
      if !env.contextAlive {
        return Thrown(ContextNotAccessible);
      }
      var denied := NotGranted(names, env.granted);
      if denied == [] {
        GrantCallback();
      } else if requestNeeded {
        Request(denied);
      } else {
        DenyCallback(denied);
      }
      c := Normal;
    }

    /** `request(context, denied)`: launch the coroutine; it runs later (`RunLaunch`). */
    method Request(denied: seq<string>)
      requires process.Valid()
      modifies process`waiting
      ensures process.Valid()
      ensures process.waiting == old(process.waiting) + [Launch(this, denied)]
    {
      process.waiting := process.waiting + [Launch(this, denied)];
    }

    method GrantCallback()
      modifies process`log
      ensures process.log == old(process.log) + [Report(Grant)]
    {
      process.log := process.log + [Report(Grant)];
    }

    method DenyCallback(denied: seq<string>)
      modifies process`log
      ensures process.log == old(process.log) + [Report(Deny(denied))]
    {
      process.log := process.log + [Report(Deny(denied))];
    }
  }

  /** The stub activity. `helper` and `permissions` are `Delegates.notNull` properties:
      null and `None` until assigned, and reading them earlier throws. `emitted` is what
      this activity has appended to the log. */
  class StubActivity {
    const process: Process
    var helper: Permissions?
    var permissions: Option<seq<string>>
    var flag: int
    var finishing: bool
    var destroyed: bool
    ghost var emitted: seq<Event>

    /** The activity reports at most once, and not before it finishes. */
    ghost predicate Valid()
      reads this
    {
      (helper != null ==> helper.process == process) &&
      ReportCount(emitted) <= 1 &&
      (!finishing ==> ReportCount(emitted) == 0)
    }

    constructor (process: Process)
      ensures Valid() && this.process == process
      ensures helper == null && permissions == None && flag == DefaultFlag
      ensures !finishing && !destroyed && emitted == []
    {
      this.process := process;
      helper, permissions, flag := null, None, DefaultFlag;
      finishing, destroyed := false, false;
      emitted := [];
    }

    /** `onCreate(savedInstanceState)`. The host passes whether the activity is being
        restarted, the instance it retained across the restart, the launch intent's
        extras, and whether the creation hook vetoes. */
    method OnCreate(savedState: bool, retained: Permissions?, extras: Option<Extras>, hookVetoes: bool, env: Env)
      returns (c: Completion)
      requires Valid() && process.Valid() && emitted == [] && !finishing && !destroyed
      requires retained != null ==> retained.process == process
      modifies this, process`log
      ensures Valid()
      ensures var s := CreateStep(hookVetoes, savedState, retained != null, process.paramHelper != null, extras, env);
        c == s.completion && process.log == old(process.log) + s.events &&
        emitted == s.events && finishing == (Finished in s.events) && !destroyed
      ensures helper ==
        if !hookVetoes && savedState && retained != null then retained
        else if !hookVetoes && !savedState && process.paramHelper != null then process.paramHelper
        else old(helper)
      ensures var read := !hookVetoes && !savedState && process.paramHelper != null && extras.Some?;
        permissions == (if read then Some(extras.value.names) else old(permissions)) &&
        flag == (if read then extras.value.flag else old(flag))
    {
      ghost var s := CreateStep(hookVetoes, savedState, retained != null, process.paramHelper != null, extras, env);
      c := Normal;
      if hookVetoes {
      } else if savedState {
        if retained == null {
          c := Thrown(HelperNotAccessible);
        } else {
          helper := retained;
          Finish();
        }
      } else if process.paramHelper == null {
        c := Thrown(HelperNotAccessible);
      } else {
        helper := process.paramHelper;
        if extras.Some? {
          c := CreateFromExtras(extras.value, env);
        } else {
          Finish();
        }
      }
      emitted := s.events;
      CreateStepWellFormed(hookVetoes, savedState, retained != null, process.paramHelper != null, extras, env);
    }

    /** The part of `onCreate` that reads the extras and applies the rationale policy. */
    method CreateFromExtras(extras: Extras, env: Env) returns (c: Completion)
      requires helper != null && helper.process == process && !finishing
      modifies this`permissions, this`flag, this`finishing, process`log
      ensures var s := FreshCreateStep(extras.names, extras.flag, env);
        c == s.completion && process.log == old(process.log) + s.events && finishing == (Finished in s.events)
      ensures permissions == Some(extras.names) && flag == extras.flag
    {
      var names := extras.names;
      permissions := Some(names);
      flag := extras.flag;
      var blocked := Blocked(names, env.showRationale);
      var action := Policy(flag, blocked);
      c := Normal;
      if action == ShowRationale {
        var shown := ShowRationaleScreen(names, blocked, env);
        if !shown {
          Finish();
        }
      } else if action == DenyAll {
        helper.DenyCallback(names);
        Finish();
      } else {
        c := RequestThenFinishIfDenied(names, env);
      }
    }

    /** `if (requestPermissions(names)) return` followed by `finish()`. */
    method RequestThenFinishIfDenied(names: seq<string>, env: Env) returns (c: Completion)
      requires (helper != null ==> helper.process == process) && !finishing
      modifies this`finishing, process`log
      ensures var s := RequestThenFinish(names, helper != null, env.sdkAtLeastM);
        c == s.completion && process.log == old(process.log) + s.events && finishing == (Finished in s.events)
    {
      var issued;
      issued, c := RequestPermissions(names, env);
      if !issued && c == Normal {
        Finish();
      }
    }

    /** `onActivityResult(requestCode, resultCode, data)`. */
    method OnActivityResult(requestCode: int, resultCode: int, env: Env) returns (c: Completion)
      requires Valid() && process.Valid() && !finishing && !destroyed
      modifies this`finishing, this`emitted, process`log, process`waiting
      ensures Valid() && process.Valid()
      ensures var s := ActivityResultStep(requestCode, resultCode, helper != null, permissions, env);
        c == s.completion && process.log == old(process.log) + s.events &&
        emitted == old(emitted) + s.events && finishing == (Finished in s.events)
      ensures process.waiting == old(process.waiting)
    {
      ghost var s := ActivityResultStep(requestCode, resultCode, helper != null, permissions, env);
      if requestCode == RequestCodeShowRationale {
        c := OnRationaleResult(resultCode, env);
      } else if requestCode == RequestCodeShowSettings {
        c := OnSettingsResult(env);
      } else {
        c := Normal;
        Finish();
      }
      emitted := emitted + s.events;
      ActivityResultWellFormed(requestCode, resultCode, helper != null, permissions, env);
      ReportCountAppend(old(emitted), s.events);
    }

    /** The rationale screen's result: "settings" opens the settings screen, OK requests
        the stub's names, anything else finishes. */
    method OnRationaleResult(resultCode: int, env: Env) returns (c: Completion)
      requires (helper != null ==> helper.process == process) && !finishing
      modifies this`finishing, process`log
      ensures var s := ActivityResultStep(RequestCodeShowRationale, resultCode, helper != null, permissions, env);
        c == s.completion && process.log == old(process.log) + s.events && finishing == (Finished in s.events)
    {
      c := Normal;
      if resultCode == RationaleResultSettings {
        ShowSettings();
      } else if resultCode == ResultOk {
        if permissions.None? {
          c := Thrown(NotInitialized);
        } else {
          c := RequestThenFinishIfDenied(permissions.value, env);
        }
      } else {
        Finish();
      }
    }

    /** The return from the settings screen: re-check the stub's names without requesting. */
    method OnSettingsResult(env: Env) returns (c: Completion)
      requires (helper != null ==> helper.process == process) && process.Valid() && !finishing
      modifies this`finishing, process`log, process`waiting
      ensures process.Valid()
      ensures var s := ActivityResultStep(RequestCodeShowSettings, 0, helper != null, permissions, env);
        c == s.completion && process.log == old(process.log) + s.events && finishing == (Finished in s.events)
      ensures process.waiting == old(process.waiting)
    {
      if helper == null || permissions.None? {
        c := Thrown(NotInitialized);
      } else {
        CheckStepSpec(permissions.value, false, env);
        c := helper.CheckPermissions(permissions.value, false, env);
        if c == Normal {
          Finish();
        }
      }
    }

    /** `onRequestPermissionsResult(requestCode, permissions, grantResults)`. */
    method OnRequestPermissionsResult(requestCode: int, names: seq<string>, results: seq<int>) returns (c: Completion)
      requires ResultsCoverNames(requestCode, names, results)
      requires Valid() && !finishing && !destroyed
      modifies this`finishing, this`emitted, process`log
      ensures Valid()
      ensures var s := PermissionsResultStep(requestCode, helper != null, permissions, names, results);
        c == s.completion && process.log == old(process.log) + s.events &&
        emitted == old(emitted) + s.events && finishing == (Finished in s.events)
    {
      ghost var s := PermissionsResultStep(requestCode, helper != null, permissions, names, results);
      if requestCode == RequestCodePermissions {
        c := ReportResults(names, results);
      } else {
        c := Normal;
        Finish();
      }
      emitted := emitted + s.events;
      PermissionsResultWellFormed(requestCode, helper != null, permissions, names, results);
      ReportCountAppend(old(emitted), s.events);
    }

    /** The permission result for the stub's own request: build the denied list, report,
        finish. */
    method ReportResults(names: seq<string>, results: seq<int>) returns (c: Completion)
      requires results != [] ==> |names| <= |results|
      requires (helper != null ==> helper.process == process) && !finishing
      modifies this`finishing, process`log
      ensures var s := PermissionsResultStep(RequestCodePermissions, helper != null, permissions, names, results);
        c == s.completion && process.log == old(process.log) + s.events && finishing == (Finished in s.events)
    {
      if results == [] && permissions.None? {
        return Thrown(NotInitialized);
      }
      var denied := if results == [] then permissions.value else FilterIndexed(names, results);
      if helper == null {
        return Thrown(NotInitialized);
      }
      if denied == [] {
        helper.GrantCallback();
      } else {
        helper.DenyCallback(denied);
      }
      Finish();
      c := Normal;
    }

    /** `onDestroy()`: when the activity is finishing, the guard is released whatever
        happened before; unlocking a guard nobody holds throws. */
    method OnDestroy(isFinishing: bool) returns (c: Completion)
      requires !destroyed && (finishing ==> isFinishing)
      modifies this`destroyed, process`guard
      ensures destroyed
      ensures process.guard == (old(process.guard) && !isFinishing)
      ensures c == if isFinishing && !old(process.guard) then Thrown(MutexNotLocked) else Normal
    {
      destroyed := true;
      c := Normal;
      if isFinishing {
        c := process.ReleaseMutex();
      }
    }

    /** `requestPermissions(names)`: on M or above ask the host for the dialog and return
        true; below, deny the names and return false. */
    method RequestPermissions(names: seq<string>, env: Env) returns (issued: bool, c: Completion)
      requires helper != null ==> helper.process == process
      modifies process`log
      ensures issued == env.sdkAtLeastM
      ensures c == if !env.sdkAtLeastM && helper == null then Thrown(NotInitialized) else Normal
      ensures process.log == old(process.log) +
        if env.sdkAtLeastM then [DialogRequested(names)]
        else if helper == null then []
        else [Report(Deny(names))]
    {
      c := Normal;
      if env.sdkAtLeastM {
        process.log := process.log + [DialogRequested(names)];
        issued := true;
      } else {
        issued := false;
        if helper == null {
          c := Thrown(NotInitialized);
        } else {
          helper.DenyCallback(names);
        }
      }
    }

    /** `showRationale(names, blocked)`: start the installed rationale intent when the
        application installed one, and say whether it did. The names and the flag go on a
        clone of that intent, not on the one started. */
    method ShowRationaleScreen(names: seq<string>, blocked: bool, env: Env) returns (shown: bool)
      modifies process`log
      ensures shown == env.rationaleIntentSet
      ensures process.log == old(process.log) + if shown then [RationaleShown(names, blocked)] else []
    {
      shown := env.rationaleIntentSet;
      if shown {
        process.log := process.log + [RationaleShown(names, blocked)];
      }
    }

    /** `showSettings()`. */
    method ShowSettings()
      modifies process`log
      ensures process.log == old(process.log) + [SettingsShown]
    {
      process.log := process.log + [SettingsShown];
    }

    /** `finish()`. */
    method Finish()
      modifies this`finishing, process`log
      ensures finishing && process.log == old(process.log) + [Finished]
    {
      finishing := true;
      process.log := process.log + [Finished];
    }
  }
}
