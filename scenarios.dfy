/** Whole request sessions driven through the lifecycle classes, host events in the order
    the host delivers them. */
module Scenarios {
  import opened Flags
  import opened Filters
  import opened Events
  import opened Steps
  import opened Lifecycle

  const Camera := "CAMERA"
  const Location := "LOCATION"
  const PermissionDenied := -1
  const ResultCanceled := 0

  /** One request up to the stub activity's `onCreate`: an orchestrator for `names`
      checks with `flag`, the coroutine it launched runs, and the host creates the stub
      activity from the intent that coroutine started. */
  method Session(p: Process, names: seq<string>, denied: seq<string>, flag: int, env: Env)
    returns (perms: Permissions, stub: StubActivity)
    requires p.Valid() && !p.guard && p.waiting == []
    requires env.contextAlive && NotGranted(names, env.granted) == denied && denied != []
    modifies p
    ensures fresh(perms) && fresh(stub) && perms.process == p && stub.process == p
    ensures p.Valid() && stub.Valid() && p.guard && p.waiting == [] && p.paramHelper == perms
    ensures var s := FreshCreateStep(denied, flag, env);
      p.log == old(p.log) + [StubStarted(denied, flag)] + s.events &&
      stub.finishing == (Finished in s.events) && !stub.destroyed
    ensures stub.helper == perms && stub.permissions == Some(denied)
  {
    perms := new Permissions.From(p, names);
    var c := perms.Check(flag, env);
    assert CheckStep(names, true, env) == Requested(denied);
    assert p.waiting == [Launch(perms, denied)] && p.log == old(p.log);
    p.RunLaunch(0, false);
    assert p.paramHelper == perms && p.log == old(p.log) + [StubStarted(denied, flag)];
    stub := new StubActivity(p);
    ghost var logBefore := p.log;
    c := stub.OnCreate(false, null, Some(Extras(denied, flag)), false, env);
    assert p.log == logBefore + FreshCreateStep(denied, flag, env).events;
  }

  /** Default flag, no rationale screen installed, the host shows no rationale for the
      name: the stub activity finishes without asking the host and without a report;
      destroying it releases the guard. */
  method BlockedWithoutRationaleScreen() returns (log: seq<Event>, guardHeld: bool)
    ensures log == [StubStarted([Camera], BlockedOnly), Finished]
    ensures !guardHeld
  {
    var env := Env({}, {}, true, true, false);
    var p := new Process();
    assert NotGranted([Camera], {}) == [Camera];
    assert WithRationale([Camera], {}) == [];
    var perms, stub := Session(p, [Camera], [Camera], DefaultFlag, env);
    var c := stub.OnDestroy(true);
    log, guardHeld := p.log, p.guard;
  }

  /** The same request when the host would show a rationale: not blocked, so the dialog
      is requested directly; the host denies; the caller gets exactly that name denied. */
  method DialogDenied() returns (log: seq<Event>, guardHeld: bool)
    ensures log == [StubStarted([Camera], BlockedOnly), DialogRequested([Camera]),
                    Report(Deny([Camera])), Finished]
    ensures !guardHeld
  {
    var env := Env({}, {Camera}, true, true, false);
    var p := new Process();
    assert NotGranted([Camera], {}) == [Camera];
    assert WithRationale([Camera], {Camera}) == [Camera];
    var perms, stub := Session(p, [Camera], [Camera], DefaultFlag, env);
    assert p.log == [StubStarted([Camera], BlockedOnly), DialogRequested([Camera])];
    assert FilterIndexed([Camera], [PermissionDenied]) == [Camera];
    var c := stub.OnRequestPermissionsResult(RequestCodePermissions, [Camera], [PermissionDenied]);
    c := stub.OnDestroy(true);
    log, guardHeld := p.log, p.guard;
  }

  /** Flag `Always`, one of two names already granted: the rationale screen is shown for
      the missing name only, and after OK the dialog is requested for that name only. */
  method RationaleThenDialog() returns (log: seq<Event>, guardHeld: bool)
    ensures log == [StubStarted([Location], Always), RationaleShown([Location], true),
                    DialogRequested([Location])]
    ensures guardHeld
  {
    var env := Env({Camera}, {}, true, true, true);
    var p := new Process();
    assert Location !in {Camera} by { assert |Location| != |Camera|; }
    assert [Camera, Location][1..] == [Location];
    assert NotGranted([Location], {Camera}) == [Location];
    assert NotGranted([Camera, Location], {Camera}) == [] + NotGranted([Location], {Camera});
    assert WithRationale([Location], {}) == [];
    var perms, stub := Session(p, [Camera, Location], [Location], Always, env);
    var c := stub.OnActivityResult(RequestCodeShowRationale, ResultOk, env);
    log, guardHeld := p.log, p.guard;
  }

  /** A stub waiting on its rationale screen: the screen asks for settings, and on return
      from settings every name is granted. The re-check reports grant and finishes. */
  method SettingsRoundTrip(p: Process, stub: StubActivity, names: seq<string>, after: Env)
    requires stub.process == p && p.Valid() && stub.Valid() && !stub.finishing && !stub.destroyed
    requires stub.helper != null && stub.permissions == Some(names)
    requires after.contextAlive && NotGranted(names, after.granted) == []
    modifies stub, p
    ensures p.Valid() && p.log == old(p.log) + [SettingsShown, Report(Grant), Finished]
    ensures p.waiting == old(p.waiting) && p.guard == old(p.guard)
    ensures stub.finishing && !stub.destroyed
  {
    var c := stub.OnActivityResult(RequestCodeShowRationale, RationaleResultSettings, after);
    assert p.log == old(p.log) + [SettingsShown] && !stub.finishing;
    assert ActivityResultStep(RequestCodeShowSettings, ResultCanceled, true, Some(names), after)
        == Step([Report(Grant), Finished], Normal);
    c := stub.OnActivityResult(RequestCodeShowSettings, ResultCanceled, after);
  }

  /** The rationale screen sends the user to settings; on return the permission is
      granted and the re-check reports grant without a new request. */
  method SettingsThenGranted() returns (log: seq<Event>, waiting: nat, guardHeld: bool)
    ensures log == [StubStarted([Location], Always), RationaleShown([Location], true),
                    SettingsShown, Report(Grant), Finished]
    ensures waiting == 0 && !guardHeld
  {
    var before := Env({}, {}, true, true, true);
    var p := new Process();
    assert NotGranted([Location], {}) == [Location];
    assert WithRationale([Location], {}) == [];
    var perms, stub := Session(p, [Location], [Location], Always, before);
    assert p.log == [StubStarted([Location], Always), RationaleShown([Location], true)];
    assert NotGranted([Location], {Location}) == [];
    SettingsRoundTrip(p, stub, [Location], before.(granted := {Location}));
    var c := stub.OnDestroy(true);
    log, waiting, guardHeld := p.log, |p.waiting|, p.guard;
  }

  /** A second check while the first request holds the guard: its launch stays queued,
      since the model runs a launch only while the guard is free, and it runs once the
      first stub activity is destroyed while finishing. The model does not say what the
      real mutex does with a second lock by the same owner. */
  method SecondRequestWaits() returns (log: seq<Event>, guardHeld: bool)
    ensures log == [StubStarted([Camera], Never), Report(Deny([Camera])), Finished,
                    StubStarted([Location], Skip)]
    ensures guardHeld
  {
    var env := Env({}, {}, true, true, false);
    var p := new Process();
    assert NotGranted([Camera], {}) == [Camera];
    assert WithRationale([Camera], {}) == [];
    assert FreshCreateStep([Camera], Never, env) == Step([Report(Deny([Camera])), Finished], Normal);
    var first, stub := Session(p, [Camera], [Camera], Never, env);
    assert p.log == [StubStarted([Camera], Never), Report(Deny([Camera])), Finished];
    var second := new Permissions.From(p, [Location]);
    assert NotGranted([Location], {}) == [Location];
    assert CheckStep([Location], true, env) == Requested([Location]);
    var c := second.Check(Skip, env);
    assert p.guard && p.waiting == [Launch(second, [Location])];
    c := stub.OnDestroy(true);
    p.RunLaunch(0, false);
    log, guardHeld := p.log, p.guard;
  }

  /** Every name already granted: each check reports grant at once, without touching the
      guard or launching anything. */
  method AlreadyGrantedTwice() returns (log: seq<Event>, waiting: nat, guardHeld: bool)
    ensures log == [Report(Grant), Report(Grant)] && waiting == 0 && !guardHeld
  {
    var env := Env({Camera}, {}, true, true, false);
    var p := new Process();
    var perms := new Permissions.From(p, [Camera]);
    assert NotGranted([Camera], {Camera}) == [];
    var c := perms.Check(DefaultFlag, env);
    c := perms.Check(DefaultFlag, env);
    log, waiting, guardHeld := p.log, |p.waiting|, p.guard;
  }

  /** The launch throws: the guard is given back and the caller hears nothing. */
  method LaunchFails() returns (log: seq<Event>, guardHeld: bool)
    ensures log == [] && !guardHeld
  {
    var env := Env({}, {}, true, true, false);
    var p := new Process();
    var perms := new Permissions.From(p, [Camera]);
    var c := perms.Check(DefaultFlag, env);
    assert NotGranted([Camera], {}) == [Camera];
    p.RunLaunch(0, true);
    log, guardHeld := p.log, p.guard;
  }
}
