/** What each handler of the permission library does, as a function of the state it reads
    and of the host: the log entries it appends (ending with `Finished` when it calls
    `finish()`) and how it completes. The classes in `Lifecycle` are proved to append
    exactly these entries; the lemmas here state what the entries mean. */
module Steps {
  import opened Flags
  import opened Filters
  import opened Events

  /** The requested names the host does not report as granted, in request order. */
  function NotGranted(names: seq<string>, granted: set<string>): seq<string>
  {
    Filter(names, x => x !in granted)
  }

  /** The names for which the host would show a rationale. */
  function WithRationale(names: seq<string>, showRationale: set<string>): seq<string>
  {
    Filter(names, x => x in showRationale)
  }

  /** `blocked`: fewer names with a rationale than names. */
  function Blocked(names: seq<string>, showRationale: set<string>): bool
  {
    |WithRationale(names, showRationale)| < |names|
  }

  lemma BlockedIff(names: seq<string>, showRationale: set<string>)
    ensures Blocked(names, showRationale) <==> exists p :: p in names && p !in showRationale
  {
    FilterShorter(names, x => x in showRationale);
  }

  // ---------------------------------------------------------------------------------
  // Permissions.checkPermissions

  /** What `checkPermissions(names, requestNeeded)` does: throw because the context is
      gone, report, or launch a request for the denied names. */
  datatype CheckResult = ContextGone | Reported(outcome: Outcome) | Requested(denied: seq<string>)

  function CheckStep(names: seq<string>, requestNeeded: bool, env: Env): CheckResult
  {
    if !env.contextAlive then ContextGone
    else
      var denied := NotGranted(names, env.granted);
      if denied == [] then Reported(Grant)
      else if requestNeeded then Requested(denied)
      else Reported(Deny(denied))
  }

  /** The log entries a check appends and how it completes (a launched request appends
      nothing yet). */
  function CheckEvents(r: CheckResult): seq<Event>
  {
    if r.Reported? then [Report(r.outcome)] else []
  }

  function CheckCompletion(r: CheckResult): Completion
  {
    if r.ContextGone? then Thrown(ContextNotAccessible) else Normal
  }

  /** Exactly the requested names not granted, in order and with their multiplicity. */
  ghost predicate ExactlyNotGranted(d: seq<string>, names: seq<string>, granted: set<string>)
  {
    IsSubsequence(d, names) &&
    (forall x :: x in d <==> x in names && x !in granted) &&
    (forall x :: multiset(d)[x] == if x in granted then 0 else multiset(names)[x])
  }

  lemma NotGrantedExact(names: seq<string>, granted: set<string>)
    ensures ExactlyNotGranted(NotGranted(names, granted), names, granted)
  {
    FilterOrdered(names, x => x !in granted);
    forall x ensures multiset(NotGranted(names, granted))[x] == if x in granted then 0 else multiset(names)[x] {
      FilterCount(names, x => x !in granted, x);
    }
  }

  /** The three outcomes of the orchestrator's check and when each is taken. */
  lemma CheckStepSpec(names: seq<string>, requestNeeded: bool, env: Env)
    ensures var r := CheckStep(names, requestNeeded, env);
      (r == ContextGone <==> !env.contextAlive) &&
      (env.contextAlive ==> (r == Reported(Grant) <==> forall x :: x in names ==> x in env.granted)) &&
      (r.Requested? ==> requestNeeded && r.denied != [] && ExactlyNotGranted(r.denied, names, env.granted)) &&
      (r.Reported? && r.outcome.Deny? ==>
         !requestNeeded && r.outcome.denied != [] && ExactlyNotGranted(r.outcome.denied, names, env.granted)) &&
      (env.contextAlive && !requestNeeded ==> r.Reported?)
  {
    NotGrantedExact(names, env.granted);
  }

  // ---------------------------------------------------------------------------------
  // StubActivity.onCreate

  /** The three actions of the rationale policy. */
  datatype Action = ShowRationale | DenyAll | RequestAll

  function Policy(flag: int, blocked: bool): Action
  {
    if flag == Always || (flag == BlockedOnly && blocked) then ShowRationale
    else if flag == Never && blocked then DenyAll
    else RequestAll
  }

  /** The policy table: what each flag does with and without a blocked name. A flag
      outside the four constants acts like `Skip`. */
  lemma PolicyTable(flag: int, blocked: bool)
    ensures flag == Always ==> Policy(flag, blocked) == ShowRationale
    ensures flag == BlockedOnly ==> Policy(flag, blocked) == (if blocked then ShowRationale else RequestAll)
    ensures flag == Never ==> Policy(flag, blocked) == (if blocked then DenyAll else RequestAll)
    ensures flag !in {Never, BlockedOnly, Always} ==> Policy(flag, blocked) == RequestAll
    ensures Policy(flag, blocked) == DenyAll ==> blocked
    ensures !blocked ==> Policy(flag, blocked) == Policy(Skip, blocked) || flag == Always
  {
  }

  /** `requestPermissions(names)` followed by the caller's `finish()` when it returns
      false: at API level M or above the dialog is requested and the activity stays;
      below, the names are denied and the activity finishes. `helperSet` is whether the
      activity's `helper` was ever assigned. */
  function RequestThenFinish(names: seq<string>, helperSet: bool, sdkAtLeastM: bool): Step
  {
    if sdkAtLeastM then Step([DialogRequested(names)], Normal)
    else if !helperSet then Step([], Thrown(NotInitialized))
    else Step([Report(Deny(names)), Finished], Normal)
  }

  datatype Step = Step(events: seq<Event>, completion: Completion)

  /** The part of `onCreate` that runs once the extras are read (lines 121-146), as
      written. */
  function FreshCreateStep(names: seq<string>, flag: int, env: Env): Step
  {
    var blocked := Blocked(names, env.showRationale);
    match Policy(flag, blocked)
    case ShowRationale =>
      if env.rationaleIntentSet then Step([RationaleShown(names, blocked)], Normal)
      else Step([Finished], Normal)
    case DenyAll => Step([Report(Deny(names)), Finished], Normal)
    case RequestAll => RequestThenFinish(names, true, env.sdkAtLeastM)
  }

  /** The whole of `onCreate`: the creation hook may veto; a restart after a
      configuration change recovers the retained helper and finishes; a first start needs
      the static helper handed over by the launch, and reads its extras when there are
      any. */
  function CreateStep(hookVetoes: bool, savedState: bool, retainedSet: bool, paramHelperSet: bool,
                      extras: Option<Extras>, env: Env): Step
  {
    if hookVetoes then Step([], Normal)
    else if savedState then
      if retainedSet then Step([Finished], Normal) else Step([], Thrown(HelperNotAccessible))
    else if !paramHelperSet then Step([], Thrown(HelperNotAccessible))
    else if extras.None? then Step([Finished], Normal)
    else FreshCreateStep(extras.value.names, extras.value.flag, env)
  }

  // ---------------------------------------------------------------------------------
  // StubActivity.onActivityResult

  function ActivityResultStep(requestCode: int, resultCode: int, helperSet: bool,
                              stubNames: Option<seq<string>>, env: Env): Step
  {
    if requestCode == RequestCodeShowRationale then
      if resultCode == RationaleResultSettings then Step([SettingsShown], Normal)
      else if resultCode == ResultOk then
        if stubNames.None? then Step([], Thrown(NotInitialized))
        else RequestThenFinish(stubNames.value, helperSet, env.sdkAtLeastM)
      else Step([Finished], Normal)
    else if requestCode == RequestCodeShowSettings then
      if !helperSet || stubNames.None? then Step([], Thrown(NotInitialized))
      else
        match CheckStep(stubNames.value, false, env)
        case ContextGone => Step([], Thrown(ContextNotAccessible))
        case Reported(o) => Step([Report(o), Finished], Normal)
        case Requested(_) => Step([Finished], Normal)
    else Step([Finished], Normal)
  }

  // ---------------------------------------------------------------------------------
  // StubActivity.onRequestPermissionsResult

  /** The host hands names and results together; a non-empty result array is indexed for
      every name. */
  predicate ResultsCoverNames(requestCode: int, names: seq<string>, results: seq<int>)
  {
    requestCode == RequestCodePermissions && results != [] ==> |names| <= |results|
  }

  /** The report built from a permission result: an empty result array denies the stub's
      own list; otherwise the names whose result is not "granted" are denied. */
  function ResultOutcome(stubNames: seq<string>, names: seq<string>, results: seq<int>): Outcome
    requires results != [] ==> |names| <= |results|
  {
    var denied := if results == [] then stubNames else FilterIndexed(names, results);
    if denied == [] then Grant else Deny(denied)
  }

  function PermissionsResultStep(requestCode: int, helperSet: bool, stubNames: Option<seq<string>>,
                                 names: seq<string>, results: seq<int>): Step
    requires ResultsCoverNames(requestCode, names, results)
  {
    if requestCode != RequestCodePermissions then Step([Finished], Normal)
    else if results == [] && stubNames.None? then Step([], Thrown(NotInitialized))
    else if !helperSet then Step([], Thrown(NotInitialized))
    else Step([Report(ResultOutcome(if results == [] then stubNames.value else [], names, results)), Finished], Normal)
  }
}

/** What the handler steps promise about reports: how many, which names, and which paths
    end without any. */
module StepFacts {
  import opened Flags
  import opened Filters
  import opened Events
  import opened Steps

  /** A step reports at most once, reports only on its way to `finish()`, and `finish()`
      is the last thing it does. */
  ghost predicate WellFormed(s: Step)
  {
    ReportCount(s.events) <= 1 &&
    (ReportCount(s.events) == 1 ==> Finished in s.events && s.completion == Normal) &&
    (Finished in s.events ==> s.events[|s.events| - 1] == Finished)
  }

  /** The activity finishes and the caller hears nothing. */
  ghost predicate Silent(s: Step)
  {
    Finished in s.events && ReportCount(s.events) == 0
  }

  lemma ReportThenFinish(o: Outcome)
    ensures ReportCount([Report(o), Finished]) == 1
  {
    assert [Report(o), Finished][1..] == [Finished];
    assert [Finished][1..] == [];
  }

  lemma RequestThenFinishWellFormed(names: seq<string>, helperSet: bool, sdkAtLeastM: bool)
    ensures WellFormed(RequestThenFinish(names, helperSet, sdkAtLeastM))
    ensures !Silent(RequestThenFinish(names, helperSet, sdkAtLeastM))
  {
    ReportThenFinish(Deny(names));
  }

  lemma {:induction false} FreshCreateWellFormed(names: seq<string>, flag: int, env: Env)
    ensures WellFormed(FreshCreateStep(names, flag, env))
  {
    ReportThenFinish(Deny(names));
  }

  lemma {:induction false} CreateStepWellFormed(hookVetoes: bool, savedState: bool, retainedSet: bool,
                                                paramHelperSet: bool, extras: Option<Extras>, env: Env)
    ensures WellFormed(CreateStep(hookVetoes, savedState, retainedSet, paramHelperSet, extras, env))
  {
    if extras.Some? {
      FreshCreateWellFormed(extras.value.names, extras.value.flag, env);
    }
  }

  /** After the extras are read, `onCreate` reports only the stub's full list, and only
      when the policy says deny or when the platform is below M; it shows the dialog for
      the full list exactly when the policy says request on M or above. */
  lemma {:induction false} FreshCreateOutcomes(names: seq<string>, flag: int, env: Env)
    ensures var s := FreshCreateStep(names, flag, env);
            var a := Policy(flag, Blocked(names, env.showRationale));
      (forall o :: Report(o) in s.events ==> o == Deny(names)) &&
      (ReportCount(s.events) == 1 <==> a == DenyAll || (a == RequestAll && !env.sdkAtLeastM)) &&
      (DialogRequested(names) in s.events <==> a == RequestAll && env.sdkAtLeastM) &&
      (Silent(s) <==> a == ShowRationale && !env.rationaleIntentSet)
  {
    ReportThenFinish(Deny(names));
  }

  /** With flag `Never` and a blocked name, the caller gets the full list denied and the
      dialog is never requested. */
  lemma NeverBlockedDeniesWithoutDialog(names: seq<string>, env: Env)
    requires exists p :: p in names && p !in env.showRationale
    ensures FreshCreateStep(names, Never, env) == Step([Report(Deny(names)), Finished], Normal)
  {
    BlockedIff(names, env.showRationale);
  }

  /** Every `onCreate` path that finishes without a report. */
  lemma {:induction false} CreateStepSilentIff(hookVetoes: bool, savedState: bool, retainedSet: bool,
                                               paramHelperSet: bool, extras: Option<Extras>, env: Env)
    ensures Silent(CreateStep(hookVetoes, savedState, retainedSet, paramHelperSet, extras, env)) <==>
      !hookVetoes &&
      ((savedState && retainedSet) ||
       (!savedState && paramHelperSet &&
        (extras.None? ||
         (Policy(extras.value.flag, Blocked(extras.value.names, env.showRationale)) == ShowRationale &&
          !env.rationaleIntentSet))))
  {
    if extras.Some? {
      FreshCreateOutcomes(extras.value.names, extras.value.flag, env);
    }
  }

  /** A vetoing creation hook leaves the activity running, reporting nothing, so the
      guard stays held until the activity is destroyed while finishing. */
  lemma HookVetoKeepsActivity(savedState: bool, retainedSet: bool, paramHelperSet: bool,
                              extras: Option<Extras>, env: Env)
    ensures CreateStep(true, savedState, retainedSet, paramHelperSet, extras, env).events == []
  {
  }

  lemma {:induction false} ActivityResultWellFormed(requestCode: int, resultCode: int, helperSet: bool,
                                                    stubNames: Option<seq<string>>, env: Env)
    ensures WellFormed(ActivityResultStep(requestCode, resultCode, helperSet, stubNames, env))
  {
    var s := ActivityResultStep(requestCode, resultCode, helperSet, stubNames, env);
    if requestCode == RequestCodeShowRationale && resultCode == ResultOk && stubNames.Some? {
      RequestThenFinishWellFormed(stubNames.value, helperSet, env.sdkAtLeastM);
    } else if requestCode == RequestCodeShowSettings && helperSet && stubNames.Some? {
      match CheckStep(stubNames.value, false, env)
      case ContextGone =>
      case Reported(o) =>
        assert s.events == [Report(o), Finished];
        ReportThenFinish(o);
      case Requested(_) =>
    } else {
      assert s.events == [] || s.events == [SettingsShown] || s.events == [Finished];
    }
  }

  /** The rationale screen's result: "settings" opens the settings screen and keeps the
      activity; OK requests the dialog for the stub's list (or denies it below M); any
      other code finishes silently. The return from settings re-checks without
      requesting: it reports exactly what a check with `requestNeeded = false` reports. */
  lemma {:induction false} ActivityResultOutcomes(requestCode: int, resultCode: int, helperSet: bool,
                                                  stubNames: Option<seq<string>>, env: Env)
    ensures var s := ActivityResultStep(requestCode, resultCode, helperSet, stubNames, env);
      (requestCode == RequestCodeShowRationale && resultCode == RationaleResultSettings ==>
         s == Step([SettingsShown], Normal)) &&
      (requestCode == RequestCodeShowRationale && resultCode == ResultOk && stubNames.Some? ==>
         s == RequestThenFinish(stubNames.value, helperSet, env.sdkAtLeastM)) &&
      (requestCode == RequestCodeShowSettings && helperSet && stubNames.Some? && env.contextAlive ==>
         CheckStep(stubNames.value, false, env).Reported? &&
         s == Step([Report(CheckStep(stubNames.value, false, env).outcome), Finished], Normal)) &&
      (forall names :: DialogRequested(names) in s.events ==>
         requestCode == RequestCodeShowRationale && resultCode == ResultOk) &&
      (Silent(s) <==>
         (requestCode != RequestCodeShowRationale && requestCode != RequestCodeShowSettings) ||
         (requestCode == RequestCodeShowRationale && resultCode != RationaleResultSettings && resultCode != ResultOk))
  {
    if stubNames.Some? {
      CheckStepSpec(stubNames.value, false, env);
      RequestThenFinishWellFormed(stubNames.value, helperSet, env.sdkAtLeastM);
      match CheckStep(stubNames.value, false, env)
      case ContextGone =>
      case Reported(o) => ReportThenFinish(o);
      case Requested(_) =>
    }
  }

  lemma PermissionsResultWellFormed(requestCode: int, helperSet: bool, stubNames: Option<seq<string>>,
                                    names: seq<string>, results: seq<int>)
    requires ResultsCoverNames(requestCode, names, results)
    ensures WellFormed(PermissionsResultStep(requestCode, helperSet, stubNames, names, results))
    ensures Silent(PermissionsResultStep(requestCode, helperSet, stubNames, names, results)) <==>
            requestCode != RequestCodePermissions
  {
    if requestCode == RequestCodePermissions {
      ReportThenFinish(ResultOutcome(if results == [] && stubNames.Some? then stubNames.value else [], names, results));
    }
  }

  /** The report built from a permission result: with no results, the stub's own list
      (or grant when that list is empty); otherwise grant exactly when every name's
      result is "granted", and else exactly the names at the indexes whose result is not,
      taken in index order. */
  lemma {:induction false} ResultOutcomeSpec(stubNames: seq<string>, names: seq<string>, results: seq<int>)
    requires results != [] ==> |names| <= |results|
    ensures results == [] ==>
      ResultOutcome(stubNames, names, results) == if stubNames == [] then Grant else Deny(stubNames)
    ensures results != [] ==>
      (ResultOutcome(stubNames, names, results) == Grant <==>
         forall i :: 0 <= i < |names| ==> results[i] == PermissionGranted)
    ensures results != [] && ResultOutcome(stubNames, names, results).Deny? ==>
      var d := ResultOutcome(stubNames, names, results).denied;
      d != [] && IsSubsequence(d, names) &&
      (forall x :: x in d <==> exists i :: 0 <= i < |names| && names[i] == x && results[i] != PermissionGranted) &&
      (forall x :: multiset(d)[x] == |DeniedAt(names, results, x)|) &&
      exists idx :: DeniedIndexes(idx, d, names, results)
  {
    if results != [] {
      FilterIndexedOrdered(names, results);
      forall x ensures x in FilterIndexed(names, results) <==>
          exists i :: 0 <= i < |names| && names[i] == x && results[i] != PermissionGranted {
        FilterIndexedMember(names, results, x);
      }
      forall x ensures multiset(FilterIndexed(names, results))[x] == |DeniedAt(names, results, x)| {
        FilterIndexedCount(names, results, x);
      }
      var idx := FilterIndexedPositions(names, results);
    }
  }

  /** When the results the host returns match what it reports as granted, the
      permission-result handler reports the same thing as a re-check without request
      would. */
  lemma ResultAgreesWithRecheck(stubNames: seq<string>, names: seq<string>, results: seq<int>, env: Env)
    requires results != [] && |names| <= |results| && env.contextAlive
    requires forall i :: 0 <= i < |names| ==> (results[i] == PermissionGranted <==> names[i] in env.granted)
    ensures CheckStep(names, false, env) == Reported(ResultOutcome(stubNames, names, results))
  {
    FilterIndexedAgrees(names, results, x => x !in env.granted);
  }

  // ---------------------------------------------------------------------------------
  // The rationale branch without a rationale screen

  /** `onCreate` with the rationale branch falling back to requesting the permissions when
      no rationale screen is installed, instead of finishing. */
  function FreshCreateStepIntended(names: seq<string>, flag: int, env: Env): Step
  {
    var blocked := Blocked(names, env.showRationale);
    match Policy(flag, blocked)
    case ShowRationale =>
      if env.rationaleIntentSet then Step([RationaleShown(names, blocked)], Normal)
      else RequestThenFinish(names, true, env.sdkAtLeastM)
    case DenyAll => Step([Report(Deny(names)), Finished], Normal)
    case RequestAll => RequestThenFinish(names, true, env.sdkAtLeastM)
  }

  /** As written: the default flag, no rationale screen (the default), one name the host
      shows no rationale for (the host's answer for a name never asked before): the
      activity finishes and the caller hears nothing. */
  lemma SilentWithoutRationaleScreen()
    ensures Silent(FreshCreateStep(["android.permission.CAMERA"], DefaultFlag,
                                   Env({}, {}, true, true, false)))
  {
    var names := ["android.permission.CAMERA"];
    assert "android.permission.CAMERA" in names;
    BlockedIff(names, {});
  }

  /** Falling back to the request, every path of `onCreate` past the extras either
      reports once and finishes or leaves the activity waiting for a screen or the
      dialog. */
  lemma {:induction false} IntendedCreateNeverSilent(names: seq<string>, flag: int, env: Env)
    ensures WellFormed(FreshCreateStepIntended(names, flag, env))
    ensures !Silent(FreshCreateStepIntended(names, flag, env))
    ensures env.rationaleIntentSet ==> FreshCreateStepIntended(names, flag, env) == FreshCreateStep(names, flag, env)
  {
    ReportThenFinish(Deny(names));
    RequestThenFinishWellFormed(names, true, env.sdkAtLeastM);
  }
}
