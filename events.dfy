/** What the library reports and what it asks of the host, as values. */
module Events {

  datatype Option<T> = None | Some(value: T)

  /** What reaches the caller: the grant callback, or the deny callback with the names it
      receives. */
  datatype Outcome = Grant | Deny(denied: seq<string>)

  /** One entry of the append-only log: a report to the caller, or an action the library
      asks of the host (starting the stub activity with its two extras, the system
      permission dialog, the rationale screen, the settings screen, `finish()`). */
  datatype Event =
    | Report(outcome: Outcome)
    | StubStarted(names: seq<string>, flag: int)
    | DialogRequested(names: seq<string>)
    // `showRationale(names, blocked)` was called and started the installed rationale
    // intent; the intent that is started does not carry these two values
    | RationaleShown(names: seq<string>, blocked: bool)
    | SettingsShown
    | Finished

  /** The exceptions the modelled code can throw: `IllegalAccessException` when the weak
      context is gone or no helper can be found, the `IllegalStateException` of a
      `Delegates.notNull` property read before it was assigned, and that of unlocking a
      mutex nobody holds. */
  datatype Failure = ContextNotAccessible | HelperNotAccessible | NotInitialized | MutexNotLocked

  /** How a handler ends: normally, or by throwing. */
  datatype Completion = Normal | Thrown(failure: Failure)

  /** The host as seen by one handler call: which names are granted
      (`checkSelfPermission`), for which names the host would show a rationale
      (`shouldShowRequestPermissionRationale`), whether the weak context still refers to
      a live context, whether the platform is at API level M or above, and whether the
      application installed a rationale screen (`showRationaleIntent`). */
  datatype Env = Env(
    granted: set<string>,
    showRationale: set<string>,
    contextAlive: bool,
    sdkAtLeastM: bool,
    rationaleIntentSet: bool)

  /** The extras of the intent that starts the stub activity. */
  datatype Extras = Extras(names: seq<string>, flag: int)

  /** How many caller-visible reports a stretch of the log holds. */
  function ReportCount(events: seq<Event>): (n: nat)
    ensures n <= |events|
    ensures n == 0 <==> forall k :: 0 <= k < |events| ==> !events[k].Report?
  {
    if events == [] then 0
    else (if events[0].Report? then 1 else 0) + ReportCount(events[1..])
  }

  lemma {:induction false} ReportCountAppend(a: seq<Event>, b: seq<Event>)
    ensures ReportCount(a + b) == ReportCount(a) + ReportCount(b)
  {
    if a != [] {
      assert (a + b)[1..] == a[1..] + b;
      ReportCountAppend(a[1..], b);
    } else {
      assert a + b == b;
    }
  }
}
