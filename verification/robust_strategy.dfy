/** The robust strategy (InstallApkDemo/InstallApkDemo/Strategies/RobustAutomationStrategy.cs):
    the same race as the engine, a `pm install` that retries without `-g`,
    a watcher that reports UnknownBlock on cancellation, and a package check
    that is a stub answering true. */
module RobustStrategy {
  import Common
  import opened Text
  import opened InstallModel
  import opened BrandHandlers
  import InstallerEngine

  // ---------- the ADB side ----------

  const GrantRetryMarker: string := "INSTALL_GRANT_RUNTIME_PERMISSIONS"

  /** `RunAdbInstall`: `pm install -r -g`; when its output reports the
      runtime-permission grant error, once more without `-g`. Success means
      the last output, lower-cased, mentions "success"; an exception from
      either command means failure. */
  function RunAdbInstall(apkPath: string, first: Common.Outcome<string>, retry: Common.Outcome<string>): (r: AdbRun)
    ensures var retried := first.Returned? && Contains(first.value, GrantRetryMarker);
            && (retried ==> r.commands == [InstallCommand(apkPath, true), InstallCommand(apkPath, false)])
            && (!retried ==> r.commands == [InstallCommand(apkPath, true)])
            && (var last := if retried then retry else first;
                r.ok <==> last.Returned? && Contains(Lower(last.value), "success"))
  {
    match first
    case Raised => AdbRun([InstallCommand(apkPath, true)], false)
    case Returned(text) =>
      if Contains(text, GrantRetryMarker) then
        match retry
        case Raised => AdbRun([InstallCommand(apkPath, true), InstallCommand(apkPath, false)], false)
        case Returned(text2) =>
          AdbRun([InstallCommand(apkPath, true), InstallCommand(apkPath, false)], Contains(Lower(text2), "success"))
      else AdbRun([InstallCommand(apkPath, true)], Contains(Lower(text), "success"))
  }

  /** The two `RunAdbInstall`s read output differently: output that mentions
      neither "Failure" nor "success" (an empty one, say) is a success for
      the engine and a failure here. */
  lemma ClassifiersDisagreeOnSilence(apkPath: string, retry: Common.Outcome<string>)
    ensures InstallerEngine.RunAdbInstall(apkPath, Common.Returned("")).ok
    ensures !RunAdbInstall(apkPath, Common.Returned(""), retry).ok
  {
    assert Lower("") == "";
    MissingCharNotContained("", "Failure", 'F');
    MissingCharNotContained("", "success", 's');
    MissingCharNotContained("", GrantRetryMarker, 'I');
  }

  // ---------- the UI watcher ----------

  /** `CheckPackagePresent` as written: a stub that always answers true. */
  function CheckPackagePresent(packageId: string): bool {
    true
  }

  /** How the watcher's loop meets cancellation: at the loop test, or inside
      the delay, whose exception is not caught. */
  datatype WatchEnd = SeenAtCheck | ThrownInDelay

  /** The watcher's step rule over the screens it polls before cancellation,
      with `installed` as the presence check's answer: the first settling
      poll's value; with none, UnknownBlock when the loop test sees the
      token, or a cancelled task when the delay throws. */
  function WatchRule(h: UiHandler, screens: seq<Screen>, end: WatchEnd): (r: TaskStatus<BlockingState>)
    ensures (exists i :: 0 <= i < |screens| && InstallerEngine.PollDecides(h, screens[i])) ==>
              r == RanToCompletion(InstallerEngine.WatchResult(h, screens))
    ensures (forall i :: 0 <= i < |screens| ==> !InstallerEngine.PollDecides(h, screens[i])) ==>
              r == if |screens| > 0 && end == ThrownInDelay then Canceled else RanToCompletion(UnknownBlock)
    ensures r != RanToCompletion(None) && r != RanToCompletion(OverTime) && r != Faulted
  {
    var settled := InstallerEngine.WatchResult(h, screens);
    if settled != None then RanToCompletion(settled)
    else if |screens| > 0 && end == ThrownInDelay then Canceled
    else RanToCompletion(UnknownBlock)
  }

  /** The screens as the stubbed presence check sees them. */
  function Stubbed(packageId: string, screens: seq<Screen>): (r: seq<Screen>)
    ensures |r| == |screens|
    ensures forall i :: 0 <= i < |r| ==> r[i] == screens[i].(installed := CheckPackagePresent(packageId))
  {
    seq(|screens|, i requires 0 <= i < |screens| => screens[i].(installed := CheckPackagePresent(packageId)))
  }

  /** `WaitForUIAsync` as written: the step rule with the stubbed check. */
  function WaitForUI(h: UiHandler, packageId: string, screens: seq<Screen>, end: WatchEnd): TaskStatus<BlockingState> {
    WatchRule(h, Stubbed(packageId, screens), end)
  }

  /** With the stub, a watcher that polls at all reports Success at its
      first poll, whatever the screen shows. */
  lemma StubbedWatcherSaysSuccess(h: UiHandler, packageId: string, screens: seq<Screen>, end: WatchEnd)
    requires |screens| > 0
    ensures WaitForUI(h, packageId, screens, end) == RanToCompletion(Success)
  {
    var s := Stubbed(packageId, screens);
    assert InstallerEngine.PollDecides(h, s[0]);
  }

  // ---------- the decision table ----------

  /** `Install` after the race: there is no early exit; on ADB success check
      the package (the stub) and fall back if missing; on failure let the
      handler try the watcher's state and fall back when it cannot; then
      dismiss. */
  function Install(h: UiHandler, race: Race, packageId: string): (actions: seq<Action>)
    ensures |actions| > 0 && actions[|actions| - 1] == Dismiss
    ensures forall i :: 0 <= i < |actions| - 1 ==> actions[i] != Dismiss
    ensures KillAdb !in actions
    ensures CountFallbacks(actions) <= 1
    ensures Fallback in actions <==>
              (AdbSucceeded(race) && !CheckPackagePresent(packageId)) || (!AdbSucceeded(race) && !Handle(h, UiState(race)))
    ensures (exists i :: 0 <= i < |actions| && actions[i].CallHandler?) <==> !AdbSucceeded(race)
    ensures forall i :: 0 <= i < |actions| && actions[i].CallHandler? ==> actions[i].state == UiState(race)
  {
    if AdbSucceeded(race) then
      if !CheckPackagePresent(packageId) then [Fallback, Dismiss] else [Dismiss]
    else
      var state := UiState(race);
      if !Handle(h, state) then [CallHandler(state), Fallback, Dismiss]
      else
        assert [CallHandler(state), Dismiss][1..] == [Dismiss] && [Dismiss][1..] == [];
        [CallHandler(state), Dismiss]
  }

  /** With the stub, an ADB success never falls back: the run only dismisses. */
  lemma SuccessNeverFallsBack(h: UiHandler, race: Race, packageId: string)
    requires AdbSucceeded(race)
    ensures Install(h, race, packageId) == [Dismiss]
  {
  }

  /** When ADB does not succeed, the stubbed watcher's Success is handed to
      the handler, which never handles Success, so the fallback runs. */
  lemma LostRaceFallsBack(h: UiHandler, race: Race, packageId: string, screens: seq<Screen>, end: WatchEnd)
    requires !AdbSucceeded(race) && |screens| > 0
    requires race.ui == WaitForUI(h, packageId, screens, end)
    ensures Install(h, race, packageId) == [CallHandler(Success), Fallback, Dismiss]
  {
    StubbedWatcherSaysSuccess(h, packageId, screens, end);
  }

  /** Outside the engine's two exits the robust table and the engine's
      agree: a watcher that did not complete leaves UnknownBlock in both. */
  lemma AgreesWithEngine(h: UiHandler, race: Race, packageId: string)
    requires !InstallerEngine.WatcherThrowsFirst(race) && !InstallerEngine.TimedOut(race)
    ensures Install(h, race, packageId) == InstallerEngine.InstallAsync(h, race, CheckPackagePresent(packageId))
  {
  }

  /** The robust strategy never reads the winner's result, so where the
      engine ends in its exception handler (the watcher finished first
      without a result) the robust run carries on: after an ADB success it
      only dismisses; otherwise it consults the handler with UnknownBlock
      and ends with the dismissal. */
  lemma EngineAbortsWhereRobustContinues(h: UiHandler, race: Race, packageId: string)
    requires InstallerEngine.WatcherThrowsFirst(race)
    ensures InstallerEngine.InstallAsync(h, race, CheckPackagePresent(packageId)) == []
    ensures AdbSucceeded(race) ==> Install(h, race, packageId) == [Dismiss]
    ensures var actions := Install(h, race, packageId);
            !AdbSucceeded(race) ==> actions[0] == CallHandler(UnknownBlock) && actions[|actions| - 1] == Dismiss
  {
  }

  /** `RunAdbInstall` runs at most two commands: the first always grants
      permissions, the retry never does, and the retry happens exactly when
      the first output reports the grant error. */
  lemma RetryAtMostOnceWithoutGrant(apkPath: string, first: Common.Outcome<string>, retry: Common.Outcome<string>)
    ensures var r := RunAdbInstall(apkPath, first, retry);
            && 1 <= |r.commands| <= 2
            && r.commands[0] == InstallCommand(apkPath, true)
            && (|r.commands| == 2 ==> r.commands[1] == InstallCommand(apkPath, false))
            && (|r.commands| == 2 <==> first.Returned? && Contains(first.value, GrantRetryMarker))
  {
  }

  /** The verdict ignores the case of the output it reads: lower-casing the
      retry's output, or the first output when no retry follows, gives the
      same verdict. */
  lemma VerdictIgnoresCase(apkPath: string, first: string, retry: string)
    ensures RunAdbInstall(apkPath, Common.Returned(first), Common.Returned(retry)).ok
         == RunAdbInstall(apkPath, Common.Returned(first), Common.Returned(Lower(retry))).ok
    ensures !Contains(first, GrantRetryMarker) ==>
              (RunAdbInstall(apkPath, Common.Returned(first), Common.Returned(retry)).ok
               == RunAdbInstall(apkPath, Common.Returned(Lower(first)), Common.Returned(retry)).ok)
  {
    LowerIdempotent(retry);
    LowerIdempotent(first);
    assert 'I' in GrantRetryMarker;
    assert 'I' !in Lower(first);
    MissingCharNotContained(Lower(first), GrantRetryMarker, 'I');
  }
}
