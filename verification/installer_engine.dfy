/** The installer engine (InstallApkDemo/InstallApkDemo/Strategies/InstallerEngine.cs):
    the UI watcher's step rule, the classification of `pm install` output,
    and the decision table applied once the race between ADB and the
    watcher is over. How the race is scheduled is an input (`Race`). */
module InstallerEngine {
  import Common
  import opened Text
  import opened InstallModel
  import opened BrandHandlers

  // ---------- the UI watcher ----------

  /** A poll settles the watcher: the package is installed, or the handler
      detects a definite blocking state. */
  predicate PollDecides(h: UiHandler, s: Screen) {
    s.installed || IsDecisive(Detect(h, s))
  }

  /** What a settling poll returns. */
  function PollValue(h: UiHandler, s: Screen): BlockingState {
    if s.installed then Success else Detect(h, s)
  }

  /** `WaitForUIAsync` over the screens it polls before it sees the token
      cancelled: the value of the first settling poll, or None once
      cancellation ends the loop. It never reports UnknownBlock, and it
      never reports OverTime. */
  function WatchResult(h: UiHandler, screens: seq<Screen>): (r: BlockingState)
    ensures r != UnknownBlock && r != OverTime
    ensures r == None <==> forall i :: 0 <= i < |screens| ==> !PollDecides(h, screens[i])
    decreases |screens|
  {
    if |screens| == 0 then None
    else if PollDecides(h, screens[0]) then PollValue(h, screens[0])
    else
      var r := WatchResult(h, screens[1..]);
      assert forall i :: 1 <= i < |screens| ==> screens[i] == screens[1..][i - 1];
      r
  }

  /** The first settling poll decides the watcher's result. */
  lemma {:induction false} FirstSettlingPollWins(h: UiHandler, screens: seq<Screen>, k: nat)
    requires k < |screens| && PollDecides(h, screens[k])
    requires forall i :: 0 <= i < k ==> !PollDecides(h, screens[i])
    ensures WatchResult(h, screens) == PollValue(h, screens[k])
    decreases k
  {
    if k > 0 {
      FirstSettlingPollWins(h, screens[1..], k - 1);
    }
  }

  /** The watcher's loop: poll, return on a settling poll, otherwise wait
      and poll again until cancellation. */
  method WaitForUI(h: UiHandler, screens: seq<Screen>) returns (r: BlockingState)
    ensures r == WatchResult(h, screens)
  {
    var i := 0;
    while i < |screens|
      invariant 0 <= i <= |screens|
      invariant forall j :: 0 <= j < i ==> !PollDecides(h, screens[j])
    {
      var s := screens[i];
      if s.installed {
        FirstSettlingPollWins(h, screens, i);
        return Success;
      }
      var state := Detect(h, s);
      if state != None && state != UnknownBlock {
        FirstSettlingPollWins(h, screens, i);
        return state;
      }
      i := i + 1;
    }
    return None;
  }

  // ---------- the ADB side ----------

  /** `RunAdbInstall`: one `pm install -r -g`, successful unless the output
      mentions "Failure" or the command throws. */
  function RunAdbInstall(apkPath: string, output: Common.Outcome<string>): (r: AdbRun)
    ensures r.commands == [InstallCommand(apkPath, true)]
    ensures r.ok <==> output.Returned? && !Contains(output.value, "Failure")
  {
    match output
    case Returned(text) => AdbRun([InstallCommand(apkPath, true)], !Contains(text, "Failure"))
    case Raised => AdbRun([InstallCommand(apkPath, true)], false)
  }

  // ---------- the decision table ----------


  /** The watcher won the race without a result: reading its result to
      test for a timeout throws, and the catch-all ends the install. */
  predicate WatcherThrowsFirst(race: Race) {
    race.uiFirst && !race.ui.RanToCompletion?
  }

  /** The early exit: the watcher won the race reporting a timeout. */
  predicate TimedOut(race: Race) {
    race.uiFirst && race.ui == RanToCompletion(OverTime)
  }

  /** `InstallAsync` after the race: when the watcher won without a result
      the install ends in the exception handler with nothing done; on a
      timeout kill ADB and stop;
      otherwise, if ADB succeeded, check the package once more and fall back
      when it is missing; if ADB did not succeed, let the handler try the
      watcher's state and fall back when it cannot; then dismiss. */
  function InstallAsync(h: UiHandler, race: Race, packagePresent: bool): (actions: seq<Action>)
    ensures WatcherThrowsFirst(race) ==> actions == []
    ensures TimedOut(race) ==> actions == [KillAdb]
    ensures !WatcherThrowsFirst(race) && !TimedOut(race) ==>
              && |actions| > 0 && actions[|actions| - 1] == Dismiss
              && (forall i :: 0 <= i < |actions| - 1 ==> actions[i] != Dismiss)
              && KillAdb !in actions
              && CountFallbacks(actions) <= 1
              && (Fallback in actions <==>
                    (AdbSucceeded(race) && !packagePresent) || (!AdbSucceeded(race) && !Handle(h, UiState(race))))
              && ((exists i :: 0 <= i < |actions| && actions[i].CallHandler?) <==> !AdbSucceeded(race))
              && (forall i :: 0 <= i < |actions| && actions[i].CallHandler? ==> actions[i].state == UiState(race))
  {
    if WatcherThrowsFirst(race) then []
    else if TimedOut(race) then [KillAdb]
    else
      var work :=
        if AdbSucceeded(race) then
          (if !packagePresent then [Fallback] else [])
        else
          var state := UiState(race);
          [CallHandler(state)] + (if !Handle(h, state) then [Fallback] else []);
      assert CountFallbacks(work + [Dismiss]) <= 1 by {
        if AdbSucceeded(race) {
          if !packagePresent {
            assert CountFallbacks([Fallback, Dismiss]) == 1;
            assert work + [Dismiss] == [Fallback, Dismiss];
          } else {
            assert work + [Dismiss] == [Dismiss];
          }
        } else {
          var state := UiState(race);
          if !Handle(h, state) {
            assert work + [Dismiss] == [CallHandler(state), Fallback, Dismiss];
          } else {
            assert work + [Dismiss] == [CallHandler(state), Dismiss];
          }
        }
      }
      work + [Dismiss]
  }

  /** The engine's own watcher never reports OverTime, so the early exit is
      never taken: ADB is never killed, and every run that does not end in
      the exception handler ends with the dismissal. */
  lemma TimeoutBranchUnreachable(h: UiHandler, race: Race, screens: seq<Screen>, packagePresent: bool)
    requires race.ui == RanToCompletion(WatchResult(h, screens)) || !race.ui.RanToCompletion?
    ensures !TimedOut(race)
    ensures var actions := InstallAsync(h, race, packagePresent);
            && KillAdb !in actions
            && (WatcherThrowsFirst(race) <==> actions == [])
            && (!WatcherThrowsFirst(race) ==> actions[|actions| - 1] == Dismiss)
  {
  }

  /** A verified ADB install only dismisses; a fake success falls back once. */
  lemma AdbSuccessTable(h: UiHandler, race: Race)
    requires !WatcherThrowsFirst(race) && !TimedOut(race) && AdbSucceeded(race)
    ensures InstallAsync(h, race, true) == [Dismiss]
    ensures InstallAsync(h, race, false) == [Fallback, Dismiss]
  {
  }

  /** When ADB fails and the watcher saw Oppo's security center, the handler
      backs out and the fallback runs; a click prompt is handled instead. */
  lemma AdbFailureTable(h: UiHandler, race: Race, packagePresent: bool)
    requires !WatcherThrowsFirst(race) && !TimedOut(race) && !AdbSucceeded(race)
    ensures UiState(race) == CordsClick ==>
              InstallAsync(h, race, packagePresent) == [CallHandler(CordsClick), Dismiss]
    ensures UiState(race) != CordsClick ==>
              InstallAsync(h, race, packagePresent) == [CallHandler(UiState(race)), Fallback, Dismiss]
  {
  }

  /** When ADB fails and the watcher polled out its time without settling,
      the handler is asked about None, refuses, and the fallback runs. */
  lemma SilentWatcherFallsBack(h: UiHandler, race: Race, screens: seq<Screen>, packagePresent: bool)
    requires !AdbSucceeded(race) && race.ui == RanToCompletion(WatchResult(h, screens))
    requires forall i :: 0 <= i < |screens| ==> !PollDecides(h, screens[i])
    ensures InstallAsync(h, race, packagePresent) == [CallHandler(None), Fallback, Dismiss]
  {
  }

  /** `RunAdbInstall`'s verdict drives the table: unless the race ended in
      the exception handler or the time-out exit, the handler is consulted
      exactly when the command threw or its output mentions "Failure", and
      a clean output falls back exactly when the package check misses. */
  lemma AdbVerdictDrivesTable(h: UiHandler, apkPath: string, output: Common.Outcome<string>,
                              uiFirst: bool, ui: TaskStatus<BlockingState>, packagePresent: bool)
    requires !uiFirst || (ui.RanToCompletion? && ui.value != OverTime)
    ensures var race := Race(uiFirst, RanToCompletion(RunAdbInstall(apkPath, output).ok), ui);
            var actions := InstallAsync(h, race, packagePresent);
            && ((exists i :: 0 <= i < |actions| && actions[i].CallHandler?) <==>
                  output.Raised? || Contains(output.value, "Failure"))
            && (output.Returned? && !Contains(output.value, "Failure") ==>
                  (Fallback in actions <==> !packagePresent))
  {
    var race := Race(uiFirst, RanToCompletion(RunAdbInstall(apkPath, output).ok), ui);
    var actions := InstallAsync(h, race, packagePresent);
    if !AdbSucceeded(race) {
      assert actions[0].CallHandler?;
    }
  }

  /** A watcher that throws while it polls (the presence check or the
      handler's detection failing) and so finishes first ends the install
      with no fallback and no dismissal, whatever ADB did. */
  lemma ThrowingWatcherAborts(h: UiHandler, adb: TaskStatus<bool>, packagePresent: bool)
    ensures InstallAsync(h, Race(true, adb, Faulted), packagePresent) == []
  {
  }
}
