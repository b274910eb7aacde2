/** Types shared by the installer's decision rules
    (InstallApkDemo/InstallApkDemo/Model/InstallBlockingState.cs and the
    strategies). Every ADB call becomes an input: what the screen showed,
    whether a package was installed, what a shell command printed. */
module InstallModel {

  /** `InstallBlockingState`, plus `OverTime`: the engine compares the
      watcher's result with an `OverTime` member the enum does not declare,
      so the model adds it as the outcome "the watcher timed out". */
  datatype BlockingState = None | Success | CordsClick | AccountRequired | UnknownBlock | OverTime

  /** A state the watchers return at once instead of polling again. */
  predicate IsDecisive(s: BlockingState) {
    s != None && s != UnknownBlock
  }

  /** How a raced task ended, as `Task.Status` reports it after the
      exceptions of `WhenAll` have been swallowed. */
  datatype TaskStatus<+T> = RanToCompletion(value: T) | Canceled | Faulted

  /** What one watcher iteration sees: whether the package being installed
      is present, whether the package id Oppo's detector hard-codes
      ("target.package.id") is installed, and the focused window's text. */
  datatype Screen = Screen(installed: bool, targetInstalled: bool, focus: string)

  /** The outcome of the race between ADB and the watcher. */
  datatype Race = Race(uiFirst: bool, adb: TaskStatus<bool>, ui: TaskStatus<BlockingState>)

  /** The visible actions an install run takes, in order. */
  datatype Action = KillAdb | CallHandler(state: BlockingState) | Fallback | Dismiss

  /** ADB success: the install task ran to completion and returned true. */
  predicate AdbSucceeded(race: Race) {
    race.adb == RanToCompletion(true)
  }

  /** The watcher's result, or UnknownBlock when it did not run to completion. */
  function UiState(race: Race): (s: BlockingState)
    ensures s != UnknownBlock ==> race.ui == RanToCompletion(s)
    ensures race.ui.RanToCompletion? ==> s == race.ui.value
    ensures race.ui.Faulted? || race.ui.Canceled? ==> s == UnknownBlock
  {
    match race.ui
    case RanToCompletion(v) => v
    case _ => UnknownBlock
  }

  /** The `pm install` command line for an APK, with or without `-g`. */
  function InstallCommand(apkPath: string, grant: bool): string {
    "pm install -r " + (if grant then "-g " else "") + "\"" + apkPath + "\""
  }

  /** What an ADB install attempt did: the shell commands it issued, in
      order, and whether it reports success. */
  datatype AdbRun = AdbRun(commands: seq<string>, ok: bool)

  /** The number of fallbacks among a run's actions. */
  function CountFallbacks(actions: seq<Action>): nat {
    if |actions| == 0 then 0
    else (if actions[0] == Fallback then 1 else 0) + CountFallbacks(actions[1..])
  }
}
