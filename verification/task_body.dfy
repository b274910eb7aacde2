/** The task-body contract and the reference task
    (Greeter/Server/Services/DumpTaskBase.cs): how `RunAsync` classifies the
    way a body ends, the `ConfirmAsync` and `Progress` helpers, and the
    progress schedule of `AdbBackupTask`. */
module TaskBody {
  import opened Common
  import opened Text
  import opened TaskContext

  /** `DumpExitCode`: Success = 0, Error = 1 (here `Failure`, as `Error` names
      the event level), Cancel = 2. */
  datatype DumpExitCode = Success | Failure | Cancel

  /** The numeric value of an exit code. */
  function ExitCodeValue(code: DumpExitCode): int {
    match code
    case Success => 0
    case Failure => 1
    case Cancel => 2
  }

  /** The enum member's name, as `ToString()` prints it. */
  function ExitCodeName(code: DumpExitCode): string {
    match code
    case Success => "Success"
    case Failure => "Error"
    case Cancel => "Cancel"
  }

  /** How an overridden `StartOverrideAsync` ends: normally, with an
      `OperationCanceledException`, or with any other exception. */
  datatype BodyEnd = Completed | ThrewCanceled | Threw(message: string)

  /** A log line a body writes through the context; the clock is added by the sink. */
  datatype LogLine = LogLine(level: EventLevel, message: string, stage: Option<string>)

  /** What `RunAsync` returns and the log lines written during the run. */
  datatype RunResult = RunResult(code: DumpExitCode, logs: seq<LogLine>)

  const EnteringLog := LogLine(Info, "Task entering RunAsync", Some("Run"))

  /** The level of the one closing log line for each exit code. */
  function ClosingLevel(code: DumpExitCode): EventLevel {
    match code
    case Success => Info
    case Cancel => Warn
    case Failure => Error
  }

  /** `RunAsync`: logs its entry, runs the body, and turns the way the body
      ended into an exit code without letting any exception through, closing
      with one log line at the matching level. */
  function RunAsync(bodyLogs: seq<LogLine>, end: BodyEnd): (r: RunResult)
    ensures r.code == Success <==> end == Completed
    ensures r.code == Cancel <==> end == ThrewCanceled
    ensures r.code == Failure <==> end.Threw?
    ensures |r.logs| == |bodyLogs| + 2
    ensures r.logs[0] == EnteringLog && r.logs[1..|r.logs| - 1] == bodyLogs
    ensures r.logs[|r.logs| - 1].level == ClosingLevel(r.code)
    ensures r.logs[|r.logs| - 1].stage == Some("Run")
    ensures end.Threw? ==> r.logs[|r.logs| - 1].message == "Task error: " + end.message
  {
    var closing := match end
      case Completed => RunResult(Success, [LogLine(Info, "Task completed", Some("Run"))])
      case ThrewCanceled => RunResult(Cancel, [LogLine(Warn, "Task canceled", Some("Run"))])
      case Threw(m) => RunResult(Failure, [LogLine(Error, "Task error: " + m, Some("Run"))]);
    var logs := [EnteringLog] + bodyLogs + closing.logs;
    assert logs[1..|logs| - 1] == bodyLogs;
    RunResult(closing.code, logs)
  }

  /** The request `ConfirmAsync` asks: a fresh id, kind 2 (confirm), an empty
      payload and no timeout. */
  function ConfirmRequest(title: string, message: string, guid: GuidText): DialogRequest {
    DialogRequest(guid, title, message, 2, "", 0)
  }

  /** The confirm question is asked under the fresh id it was built with:
      the broker never needs to replace it, and it is published as built. */
  lemma ConfirmAskedAsBuilt(c: Ctx, title: string, message: string, guid: GuidText, other: GuidText)
    requires !c.cancelled && !c.closed && guid !in c.pending
    ensures var r := AskBegin(c, ConfirmRequest(title, message, guid), other);
            && r.Published?
            && r.request == ConfirmRequest(title, message, guid)
            && r.request.kind == 2 && r.request.payloadJson == "" && r.request.timeoutSec == 0
            && r.ctx.dialogs == c.dialogs + [r.request]
  {
    GuidNotBlank(guid);
  }

  /** The `Progress` helper: state RUNNING and zero byte counters, rate and
      ETA unless given. */
  function MakeProgress(percent: int, state: ProgressState := RUNNING, currentBytes: int := 0,
                        totalBytes: int := 0, bps: int := 0, etaSec: int := 0): Progress
  {
    Progress(percent, currentBytes, totalBytes, bps, etaSec, state)
  }

  lemma ProgressDefaults(percent: int)
    ensures MakeProgress(percent).state == RUNNING
    ensures MakeProgress(percent) == Progress(percent, 0, 0, 0, 0, RUNNING)
  {
  }

  // ---------- the reference task ----------

  /** The percent reported after work step `i` of the reference task. */
  function WorkPercent(i: int): int {
    5 + (i + 1) * 9
  }

  /** The work steps' percents rise strictly from 14 to 95. */
  lemma WorkPercentRises(i: int, j: int)
    requires 0 <= i <= j < 10
    ensures 14 <= WorkPercent(i) <= WorkPercent(j) <= 95
    ensures i < j ==> WorkPercent(i) < WorkPercent(j)
  {
  }

  /** The reports of the first `n` work steps. */
  function WorkReports(n: nat): (r: seq<Progress>)
    ensures |r| == n
    ensures forall k :: 0 <= k < n ==> r[k] == MakeProgress(WorkPercent(k))
  {
    seq(n, k requires 0 <= k < n => MakeProgress(WorkPercent(k)))
  }

  /** The work loop of `AdbBackupTask`: ten steps, each first observing
      cancellation (which the model says is first seen at step `cancelAt`)
      and then reporting its percent. */
  method WorkLoop(cancelAt: nat) returns (reports: seq<Progress>, cancelled: bool)
    ensures cancelled <==> cancelAt < 10
    ensures |reports| == if cancelAt < 10 then cancelAt else 10
    ensures forall k :: 0 <= k < |reports| ==> reports[k].percent == 5 + (k + 1) * 9
    ensures forall k :: 0 <= k < |reports| ==> reports[k].state == RUNNING
    ensures reports == WorkReports(|reports|)
  {
    reports := [];
    cancelled := false;
    var i := 0;
    while i < 10
      invariant 0 <= i <= 10
      invariant i <= cancelAt
      invariant |reports| == i
      invariant forall k :: 0 <= k < i ==> reports[k] == MakeProgress(5 + (k + 1) * 9)
    {
      if i == cancelAt {
        cancelled := true;
        return;
      }
      reports := reports + [MakeProgress(5 + (i + 1) * 9)];
      i := i + 1;
    }
  }

  /** Everything the reference task did: its log lines, its progress reports
      in order, whether it asked its question, and how it ended. */
  datatype Script = Script(logs: seq<LogLine>, reports: seq<Progress>, asked: bool, end: BodyEnd)

  /** `AdbBackupTask.StartOverrideAsync`. Its inputs are what the outside
      world decides: whether cancellation interrupts the first delay, the
      answer to the confirm question, and the work step at which cancellation
      is first observed (10 or more: never). The background logging loop is
      not part of it. */
  function ReferenceTask(delayCancelled: bool, answer: AskResult, cancelAt: nat): Script {
    var startLogs := [LogLine(Info, "Step1: 准备开始提取...", Some("Init"))];
    var startReports := [MakeProgress(0, RUNNING)];
    if delayCancelled then
      Script(startLogs, startReports, false, ThrewCanceled)
    else
      var askLogs := startLogs + [LogLine(Info, "等待用户确认...", Some("UserGate"))];
      var askReports := startReports + [MakeProgress(5)];
      match answer
      case AskFailed(OperationCanceled) => Script(askLogs, askReports, true, ThrewCanceled)
      case AskFailed(DuplicateDialogId(id)) =>
        Script(askLogs, askReports, true, Threw("Duplicate dialog id: " + id))
      case AskFailed(ChannelClosed) => Script(askLogs, askReports, true, Threw("The channel has been closed."))
      case Response(resp) =>
        if resp.result != 1 then
          Script(askLogs + [LogLine(Warn, "用户取消", Some("UserGate"))],
                 askReports + [MakeProgress(0, CANCEL)], true, ThrewCanceled)
        else
          var workLogs := askLogs + [LogLine(Info, "用户已确认，继续提取...", Some("Work"))];
          if cancelAt < 10 then
            Script(workLogs, askReports + WorkReports(cancelAt), true, ThrewCanceled)
          else
            Script(workLogs + [LogLine(Info, "提取完成", Some("Done"))],
                   askReports + WorkReports(10) + [MakeProgress(100, SUCCESS)], true, Completed)
  }

  /** Every percent the reference task reports lies within 0..100. */
  lemma ReferencePercentsInRange(delayCancelled: bool, answer: AskResult, cancelAt: nat)
    ensures var s := ReferenceTask(delayCancelled, answer, cancelAt);
            forall k :: 0 <= k < |s.reports| ==> 0 <= s.reports[k].percent <= 100
  {
  }

  /** A declined confirm question reports 0 with state CANCEL last and ends
      the run with exit code Cancel. */
  lemma DeclinedConfirmCancels(answer: AskResult, cancelAt: nat)
    requires answer.Response? && answer.response.result != 1
    ensures var s := ReferenceTask(false, answer, cancelAt);
            && s.reports[|s.reports| - 1] == MakeProgress(0, CANCEL)
            && RunAsync(s.logs, s.end).code == Cancel
  {
  }

  /** On the success path the percents are 0, 5, 14, 23, ..., 95, 100: they
      never decrease, and the last report is 100 with state SUCCESS. */
  lemma {:induction false} SuccessScheduleRises(answer: AskResult, cancelAt: nat)
    requires answer.Response? && answer.response.result == 1 && cancelAt >= 10
    ensures var s := ReferenceTask(false, answer, cancelAt);
            && |s.reports| == 13
            && s.reports[0].percent == 0 && s.reports[1].percent == 5
            && (forall k :: 2 <= k < 12 ==> s.reports[k].percent == WorkPercent(k - 2))
            && (forall i, j :: 0 <= i < j < |s.reports| ==> s.reports[i].percent <= s.reports[j].percent)
            && s.reports[12] == MakeProgress(100, SUCCESS)
            && RunAsync(s.logs, s.end).code == Success
  {
    var s := ReferenceTask(false, answer, cancelAt);
    var w := WorkReports(10);
    assert s.reports == [MakeProgress(0, RUNNING), MakeProgress(5)] + w + [MakeProgress(100, SUCCESS)];
    forall k | 2 <= k < 12
      ensures s.reports[k].percent == WorkPercent(k - 2)
    {
      assert s.reports[k] == w[k - 2];
    }
    forall i, j | 0 <= i < j < |s.reports|
      ensures s.reports[i].percent <= s.reports[j].percent
    {
      if 2 <= i && j < 12 {
        WorkPercentRises(i - 2, j - 2);
      } else if 2 <= i < 12 {
        WorkPercentRises(i - 2, 9);
      } else if 2 <= j < 12 {
        WorkPercentRises(0, j - 2);
      }
    }
  }

  /** Any run the reference task does not complete ends in Cancel or Error,
      never in Success, and only a completed run reports 100. */
  lemma OnlyCompletedRunSucceeds(delayCancelled: bool, answer: AskResult, cancelAt: nat)
    ensures var s := ReferenceTask(delayCancelled, answer, cancelAt);
            && (RunAsync(s.logs, s.end).code == Success <==>
                  !delayCancelled && answer.Response? && answer.response.result == 1 && cancelAt >= 10)
            && (s.end == Completed <==> s.reports[|s.reports| - 1] == MakeProgress(100, SUCCESS))
  {
  }
}
