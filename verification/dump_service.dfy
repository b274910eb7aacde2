/** The session controller (Greeter/Server/Services/DumpService.cs,
    `CreateTask`): the inbound command loop, the feeds that move the
    context's dialogs, events and progress onto the single outbox, and the
    `finally` teardown.

    Concurrency is replaced by steps: each inbound command, each feed
    iteration and each call the task body makes on the context is one step,
    and any interleaving of steps is a run. The outbox is the sequence of
    everything appended to it, in append order; which of those messages the
    writer manages to send before the stream closes is not modelled. */
module DumpService {
  import opened Common
  import opened Text
  import opened TaskContext
  import opened TaskBody
  import TaskContextProperties

  // ---------- messages ----------

  datatype AckKind = AckStart | AckStop | AckDialog

  datatype FinishCode = FinishSuccess | FinishCancel | FinishError

  /** The payload of a `CreateTaskResponse`. */
  datatype Body =
    | Ack(kind: AckKind, ok: bool, message: string)
    | DialogMsg(request: DialogRequest)
    | EventMsg(event: Event)
    | ProgressMsg(progress: Progress)
    | Pong(number: int, ts: int)
    | Finished(code: FinishCode, message: string)

  /** A `CreateTaskResponse`. */
  datatype Msg = Msg(taskId: string, body: Body)

  /** The action of a `CreateTaskRequest`; `NoAction` is a request with no
      action set, which the loop's `switch` passes over. */
  datatype Action =
    | StartTask(taskType: string)
    | StopTask
    | DialogAnswer(dialogId: string, result: int, payloadJson: string)
    | Ping(number: int)
    | NoAction

  /** A `CreateTaskRequest`. */
  datatype Request = Request(taskId: string, action: Action)

  /** The handle of the started task; it remembers the request that started it. */
  datatype TaskHandle = TaskHandle(taskType: string)

  /** One session: the task context, everything appended to the outbox, the
      task handle (`runningTask`, never cleared once set), and how far the
      teardown has got. */
  datatype Session = Session(
    ctx: Ctx,
    outbox: seq<Msg>,
    running: Option<TaskHandle>,
    outboxCompleted: bool,
    feedsJoined: bool,
    writerJoined: bool)

  const NewSession: Session := Session(TaskContext.Initial, [], None, false, false, false)

  /** The task id the feeds and the `Finished` message carry. */
  const SingleTaskId: string := "single"

  /** The task id a reply to `req` carries: a blank id becomes "single". */
  function ReplyTaskId(req: Request): (id: string)
    ensures IsBlank(req.taskId) ==> id == SingleTaskId
    ensures !IsBlank(req.taskId) ==> id == req.taskId
    ensures !IsBlank(id)
  {
    assert !IsWhiteSpace(SingleTaskId[0]);
    if IsBlank(req.taskId) then SingleTaskId else req.taskId
  }

  function Append(s: Session, m: Msg): Session {
    s.(outbox := s.outbox + [m])
  }

  // ---------- the command loop ----------

  /** The reply a command gets; only a request without an action gets none. */
  function Reply(s: Session, req: Request, now: int): Option<Msg> {
    var id := ReplyTaskId(req);
    match req.action
    case StartTask(_) =>
      if s.running.Some? then Some(Msg(id, Ack(AckStart, false, "Task already started")))
      else Some(Msg(id, Ack(AckStart, true, "Task starting")))
    case StopTask => Some(Msg(id, Ack(AckStop, true, "Cancel requested")))
    case DialogAnswer(_, _, _) => Some(Msg(id, Ack(AckDialog, true, "Dialog response received")))
    case Ping(n) => Some(Msg(id, Pong(n, now)))
    case NoAction => None
  }

  /** One iteration of the command loop, as intended: Start is accepted once
      and refused afterwards, Stop cancels, a dialog answer is handed to the
      broker, and every command except an empty one gets exactly one reply. */
  function Dispatch(s: Session, req: Request, now: int): (r: Session)
    requires HandlesInRange(s.ctx)
    ensures Reply(s, req, now).Some? ==> r.outbox == s.outbox + [Reply(s, req, now).value]
    ensures Reply(s, req, now).None? ==> r == s
    ensures req.action.StartTask? && s.running.None? ==> r.running == Some(TaskHandle(req.action.taskType))
    ensures !(req.action.StartTask? && s.running.None?) ==> r.running == s.running
    ensures req.action.StopTask? ==> r.ctx == TaskContext.Cancel(s.ctx)
    ensures req.action.DialogAnswer? ==>
              r.ctx == SetDialogResult(s.ctx, DialogResponse(req.action.dialogId, req.action.result, req.action.payloadJson))
    ensures !req.action.StopTask? && !req.action.DialogAnswer? ==> r.ctx == s.ctx
    ensures r.outboxCompleted == s.outboxCompleted && r.feedsJoined == s.feedsJoined && r.writerJoined == s.writerJoined
  {
    var reply := Reply(s, req, now);
    match req.action
    case StartTask(taskType) =>
      var s1 := Append(s, reply.value);
      if s.running.Some? then s1 else s1.(running := Some(TaskHandle(taskType)))
    case StopTask =>
      Append(s.(ctx := TaskContext.Cancel(s.ctx)), reply.value)
    case DialogAnswer(id, result, payload) =>
      Append(s.(ctx := SetDialogResult(s.ctx, DialogResponse(id, result, payload))), reply.value)
    case Ping(_) => Append(s, reply.value)
    case NoAction => s
  }

  /** How an iteration of the loop AS WRITTEN ends: the loop goes on, or an
      exception ends it and the teardown starts. */
  datatype Dispatched = Continued(session: Session) | Faulted(session: Session)

  /** `outbox.Writer.WriteAsync(m, ct)`: on an unbounded channel the write
      succeeds unless the token has been cancelled, in which case it fails
      with `OperationCanceledException` and appends nothing. */
  function WriteWithToken(s: Session, m: Msg): (r: Dispatched)
    ensures r.Faulted? <==> s.ctx.cancelled
    ensures r.Faulted? ==> r.session == s
    ensures r.Continued? ==> r.session.(outbox := s.outbox) == s && r.session.outbox == s.outbox + [m]
  {
    if s.ctx.cancelled then Faulted(s) else Continued(Append(s, m))
  }

  /** One iteration of the command loop AS WRITTEN: every reply is written
      with the session token `ct`, and Stop writes its acknowledgement just
      after cancelling the task scope, which `ct` is linked to. */
  function DispatchAsWritten(s: Session, req: Request, now: int): (r: Dispatched)
    requires HandlesInRange(s.ctx)
  {
    var reply := Reply(s, req, now);
    match req.action
    case StartTask(taskType) =>
      if s.running.Some? then WriteWithToken(s, reply.value)
      else
        (match WriteWithToken(s, reply.value)
         case Continued(s1) => Continued(s1.(running := Some(TaskHandle(taskType))))
         case Faulted(s1) => Faulted(s1))
    case StopTask =>
      WriteWithToken(s.(ctx := TaskContext.Cancel(s.ctx)), reply.value)
    case DialogAnswer(id, result, payload) =>
      WriteWithToken(s.(ctx := SetDialogResult(s.ctx, DialogResponse(id, result, payload))), reply.value)
    case Ping(_) => WriteWithToken(s, reply.value)
    case NoAction => Continued(s)
  }

  /** AS WRITTEN, Stop is never acknowledged: in every state the write of
      "Cancel requested" observes the token Stop has just cancelled, nothing
      is appended, and the exception ends the command loop. */
  lemma AsWrittenStopNeverAcked(s: Session, taskId: string, now: int)
    requires HandlesInRange(s.ctx)
    ensures var r := DispatchAsWritten(s, Request(taskId, StopTask), now);
            && r.Faulted?
            && r.session.outbox == s.outbox
            && r.session.ctx.cancelled
  {
  }

  /** Before cancellation, and for every command but Stop, the loop as
      written does what the intended loop does. */
  lemma AsWrittenAgreesBeforeCancel(s: Session, req: Request, now: int)
    requires HandlesInRange(s.ctx)
    requires !s.ctx.cancelled && !req.action.StopTask?
    ensures DispatchAsWritten(s, req, now) == Continued(Dispatch(s, req, now))
  {
    if req.action.DialogAnswer? {
      var c := SetDialogResult(s.ctx, DialogResponse(req.action.dialogId, req.action.result, req.action.payloadJson));
      assert c.cancelled == s.ctx.cancelled;
    }
  }

  /** AS WRITTEN, once the session token is cancelled, by Stop, the
      teardown or the transport, every command that needs a reply ends the
      loop with nothing appended; the intended loop still replies. */
  lemma AsWrittenEndsOnceCancelled(s: Session, req: Request, now: int)
    requires HandlesInRange(s.ctx)
    requires s.ctx.cancelled && !req.action.NoAction?
    ensures var r := DispatchAsWritten(s, req, now);
            r.Faulted? && r.session.outbox == s.outbox
    ensures |Dispatch(s, req, now).outbox| == |s.outbox| + 1
  {
    if req.action.DialogAnswer? {
      var c := SetDialogResult(s.ctx, DialogResponse(req.action.dialogId, req.action.result, req.action.payloadJson));
      assert c.cancelled == s.ctx.cancelled;
    }
  }

  /** As intended, Stop is accepted in every state: it sets cancellation and
      appends exactly the "Cancel requested" acknowledgement. */
  lemma StopAlwaysAcked(s: Session, taskId: string, now: int)
    requires HandlesInRange(s.ctx)
    ensures var r := Dispatch(s, Request(taskId, StopTask), now);
            && r.ctx.cancelled
            && r.outbox == s.outbox + [Msg(ReplyTaskId(Request(taskId, StopTask)), Ack(AckStop, true, "Cancel requested"))]
            && r.running == s.running
  {
  }

  // ---------- the feeds ----------

  /** One iteration of the dialog feed: while the token is live, move the
      oldest unread dialog request to the outbox. */
  function FeedDialog(s: Session): (r: Session)
    ensures s.ctx.cancelled || |s.ctx.dialogs| == 0 ==> r == s
    ensures !s.ctx.cancelled && |s.ctx.dialogs| > 0 ==>
              && r.outbox == s.outbox + [Msg(SingleTaskId, DialogMsg(s.ctx.dialogs[0]))]
              && r.ctx == s.ctx.(dialogs := s.ctx.dialogs[1..])
  {
    if s.ctx.cancelled then s
    else
      match TakeDialog(s.ctx)
      case (Some(d), c) => Append(s.(ctx := c), Msg(SingleTaskId, DialogMsg(d)))
      case (None, _) => s
  }

  /** One iteration of the event feed. */
  function FeedEvent(s: Session): (r: Session)
    ensures s.ctx.cancelled || |s.ctx.events| == 0 ==> r == s
    ensures !s.ctx.cancelled && |s.ctx.events| > 0 ==>
              && r.outbox == s.outbox + [Msg(SingleTaskId, EventMsg(s.ctx.events[0]))]
              && r.ctx == s.ctx.(events := s.ctx.events[1..])
  {
    if s.ctx.cancelled then s
    else
      match TakeEvent(s.ctx)
      case (Some(e), c) => Append(s.(ctx := c), Msg(SingleTaskId, EventMsg(e)))
      case (None, _) => s
  }

  /** One iteration of the progress feed: the snapshot in the slot, if any. */
  function FeedProgress(s: Session): (r: Session)
    ensures s.ctx.cancelled || s.ctx.progress.None? ==> r == s
    ensures !s.ctx.cancelled && s.ctx.progress.Some? ==>
              && r.outbox == s.outbox + [Msg(SingleTaskId, ProgressMsg(s.ctx.progress.value))]
              && r.ctx == s.ctx.(progress := None)
  {
    if s.ctx.cancelled then s
    else
      match TakeProgress(s.ctx)
      case (Some(p), c) => Append(s.(ctx := c), Msg(SingleTaskId, ProgressMsg(p)))
      case (None, _) => s
  }

  // ---------- runs ----------

  /** One step of a running session. */
  datatype Step =
    | Inbound(req: Request, now: int)
    | TaskCall(op: TaskContextProperties.Op)
    | FeedDialogs
    | FeedEvents
    | FeedProgressSlot
    | TransportCancelled

  function Next(s: Session, step: Step): Session
    requires Valid(s.ctx)
  {
    match step
    case Inbound(req, now) => Dispatch(s, req, now)
    case TaskCall(op) =>
      // the context is disposed only by the session, at the end of its scope
      if op.DisposeContext? then s else s.(ctx := TaskContextProperties.Apply(s.ctx, op))
    case FeedDialogs => FeedDialog(s)
    case FeedEvents => FeedEvent(s)
    case FeedProgressSlot => FeedProgress(s)
    case TransportCancelled => s.(ctx := TaskContext.Cancel(s.ctx))
  }

  predicate IsStartingAck(m: Msg) {
    m.body == Ack(AckStart, true, "Task starting")
  }

  /** The number of "Task starting" acknowledgements in an outbox. */
  function CountStarting(out: seq<Msg>): nat {
    if |out| == 0 then 0
    else CountStarting(out[..|out| - 1]) + (if IsStartingAck(out[|out| - 1]) then 1 else 0)
  }

  /** The number of `Finished` messages in an outbox. */
  function CountFinished(out: seq<Msg>): nat {
    if |out| == 0 then 0
    else CountFinished(out[..|out| - 1]) + (if out[|out| - 1].body.Finished? then 1 else 0)
  }

  lemma CountAppend(out: seq<Msg>, m: Msg)
    ensures CountStarting(out + [m]) == CountStarting(out) + (if IsStartingAck(m) then 1 else 0)
    ensures CountFinished(out + [m]) == CountFinished(out) + (if m.body.Finished? then 1 else 0)
  {
    assert (out + [m])[..|out|] == out;
  }

  /** What holds of a session while its command loop runs: the broker's
      invariant, a task handle exactly when one "Task starting" has been
      appended, and no `Finished` yet. */
  predicate Running(s: Session) {
    && Valid(s.ctx) && !s.ctx.closed
    && !s.outboxCompleted && !s.feedsJoined && !s.writerJoined
    && CountStarting(s.outbox) == (if s.running.Some? then 1 else 0)
    && CountFinished(s.outbox) == 0
  }

  /** Appending one message that is neither a start acknowledgement nor
      `Finished`, or a start acknowledgement as a task is recorded, keeps
      the counts in step. */
  lemma AppendKeepsRunning(s: Session, m: Msg, r: Session)
    requires Running(s) && Valid(r.ctx) && !r.ctx.closed && r.outbox == s.outbox + [m]
    requires !m.body.Finished?
    requires r.outboxCompleted == s.outboxCompleted && r.feedsJoined == s.feedsJoined && r.writerJoined == s.writerJoined
    requires IsStartingAck(m) ==> s.running.None? && r.running.Some?
    requires !IsStartingAck(m) ==> r.running == s.running
    ensures Running(r)
    ensures r.outbox[..|s.outbox|] == s.outbox
  {
    CountAppend(s.outbox, m);
    assert r.outbox[..|s.outbox|] == s.outbox;
  }

  lemma InboundKeepsRunning(s: Session, req: Request, now: int)
    requires Running(s)
    ensures Running(Dispatch(s, req, now))
    ensures s.running.Some? ==> Dispatch(s, req, now).running == s.running
    ensures |Dispatch(s, req, now).outbox| >= |s.outbox| && Dispatch(s, req, now).outbox[..|s.outbox|] == s.outbox
  {
    var r := Dispatch(s, req, now);
    if req.action.StopTask? {
      CancelReleasesAll(s.ctx);
    } else if req.action.DialogAnswer? {
      TaskContextProperties.SetDialogResultPreservesValid(s.ctx,
        DialogResponse(req.action.dialogId, req.action.result, req.action.payloadJson));
    }
    var reply := Reply(s, req, now);
    if reply.Some? {
      AppendKeepsRunning(s, reply.value, r);
    }
  }

  /** A call the task makes on the context keeps the session running. */
  lemma TaskCallKeepsRunning(s: Session, op: TaskContextProperties.Op)
    requires Running(s)
    ensures Running(Next(s, TaskCall(op)))
    ensures Next(s, TaskCall(op)).outbox == s.outbox && Next(s, TaskCall(op)).running == s.running
  {
    if !op.DisposeContext? {
      TaskContextProperties.ApplyPreservesValid(s.ctx, op);
      TaskContextProperties.OnlyDisposeCloses(s.ctx, op);
    }
  }

  /** Each feed iteration keeps the session running. */
  lemma FeedDialogKeepsRunning(s: Session)
    requires Running(s)
    ensures Running(FeedDialog(s)) && FeedDialog(s).running == s.running
    ensures |FeedDialog(s).outbox| >= |s.outbox| && FeedDialog(s).outbox[..|s.outbox|] == s.outbox
  {
    if !s.ctx.cancelled && |s.ctx.dialogs| > 0 {
      AppendKeepsRunning(s, Msg(SingleTaskId, DialogMsg(s.ctx.dialogs[0])), FeedDialog(s));
    }
  }

  lemma FeedEventKeepsRunning(s: Session)
    requires Running(s)
    ensures Running(FeedEvent(s)) && FeedEvent(s).running == s.running
    ensures |FeedEvent(s).outbox| >= |s.outbox| && FeedEvent(s).outbox[..|s.outbox|] == s.outbox
  {
    if !s.ctx.cancelled && |s.ctx.events| > 0 {
      AppendKeepsRunning(s, Msg(SingleTaskId, EventMsg(s.ctx.events[0])), FeedEvent(s));
    }
  }

  lemma FeedProgressKeepsRunning(s: Session)
    requires Running(s)
    ensures Running(FeedProgress(s)) && FeedProgress(s).running == s.running
    ensures |FeedProgress(s).outbox| >= |s.outbox| && FeedProgress(s).outbox[..|s.outbox|] == s.outbox
  {
    if !s.ctx.cancelled && s.ctx.progress.Some? {
      AppendKeepsRunning(s, Msg(SingleTaskId, ProgressMsg(s.ctx.progress.value)), FeedProgress(s));
    }
  }

  /** Every step keeps the session running-consistent, and a task handle,
      once recorded, never changes. */
  lemma NextKeepsRunning(s: Session, step: Step)
    requires Running(s)
    ensures Running(Next(s, step))
    ensures s.running.Some? ==> Next(s, step).running == s.running
    ensures |Next(s, step).outbox| >= |s.outbox| && Next(s, step).outbox[..|s.outbox|] == s.outbox
  {
    match step
    case Inbound(req, now) => InboundKeepsRunning(s, req, now);
    case TaskCall(op) => TaskCallKeepsRunning(s, op);
    case TransportCancelled =>
      CancelReleasesAll(s.ctx);
      assert Next(s, step).outbox[..|s.outbox|] == s.outbox;
    case FeedDialogs => FeedDialogKeepsRunning(s);
    case FeedEvents => FeedEventKeepsRunning(s);
    case FeedProgressSlot => FeedProgressKeepsRunning(s);
  }

  /** A run of the command loop and everything interleaved with it. */
  function RunSteps(s: Session, steps: seq<Step>): (r: Session)
    requires Running(s)
    ensures Running(r)
    ensures s.running.Some? ==> r.running == s.running
    ensures |r.outbox| >= |s.outbox| && r.outbox[..|s.outbox|] == s.outbox
    decreases |steps|
  {
    if |steps| == 0 then s
    else
      NextKeepsRunning(s, steps[0]);
      var s1 := Next(s, steps[0]);
      var r := RunSteps(s1, steps[1..]);
      assert r.outbox[..|s.outbox|] == r.outbox[..|s1.outbox|][..|s.outbox|];
      r
  }

  /** However the commands and the task interleave, at most one task is ever
      started: exactly one "Task starting" acknowledgement exists once the
      handle is set, and none before. */
  lemma AtMostOneStart(steps: seq<Step>)
    ensures Running(NewSession)
    ensures var r := RunSteps(NewSession, steps);
            CountStarting(r.outbox) <= 1 && (CountStarting(r.outbox) == 1 <==> r.running.Some?)
  {
    InitialValid();
  }

  /** A Start after the first one is refused and leaves the first task's
      handle in place, even after the first task has finished. */
  lemma LaterStartRefused(s: Session, taskId: string, taskType: string, now: int)
    requires HandlesInRange(s.ctx) && s.running.Some?
    ensures var r := Dispatch(s, Request(taskId, StartTask(taskType)), now);
            && r.running == s.running
            && r.outbox == s.outbox + [Msg(ReplyTaskId(Request(taskId, StartTask(taskType))),
                                           Ack(AckStart, false, "Task already started"))]
  {
  }

  /** A Ping is answered by exactly one Pong with the same sequence number
      and no acknowledgement. */
  lemma PingAnsweredByPong(s: Session, taskId: string, n: int, now: int)
    requires HandlesInRange(s.ctx)
    ensures var r := Dispatch(s, Request(taskId, Ping(n)), now);
            && |r.outbox| == |s.outbox| + 1
            && r.outbox[|s.outbox|].body == Pong(n, now)
            && r.ctx == s.ctx && r.running == s.running
  {
  }

  /** A dialog answer is handed to the broker and acknowledged whether or
      not its id was pending. */
  lemma DialogAnswerAlwaysAcked(s: Session, taskId: string, id: string, result: int, payload: string, now: int)
    requires HandlesInRange(s.ctx)
    ensures var r := Dispatch(s, Request(taskId, DialogAnswer(id, result, payload)), now);
            && r.outbox[|r.outbox| - 1].body == Ack(AckDialog, true, "Dialog response received")
            && (id !in s.ctx.pending ==> r.ctx == s.ctx)
  {
  }

  // ---------- teardown ----------

  /** How awaiting the task handle ends. */
  datatype TaskResult = RanToCompletion(code: DumpExitCode) | TaskFaulted

  /** The exit code the teardown settles on: a faulted task counts as Error. */
  function SettledCode(result: TaskResult): DumpExitCode {
    match result
    case RanToCompletion(code) => code
    case TaskFaulted => Failure
  }

  /** The finish code sent for an exit code. */
  function FinishCodeOf(code: DumpExitCode): (f: FinishCode)
    ensures f == FinishSuccess <==> code == Success
    ensures f == FinishCancel <==> code == Cancel
    ensures f == FinishError <==> code == Failure
  {
    match code
    case Success => FinishSuccess
    case Cancel => FinishCancel
    case Failure => FinishError
  }

  /** The final progress snapshot for an exit code. */
  function FinalProgress(code: DumpExitCode): (p: Progress)
    ensures p.percent == 100 <==> code == Success
    ensures p.percent == 0 <==> code != Success
    ensures p.state == SUCCESS <==> code == Success
    ensures p.state == CANCEL <==> code == Cancel
    ensures p.state == ERROR <==> code == Failure
    ensures p.currentBytes == 0 && p.totalBytes == 0 && p.bps == 0 && p.etaSec == 0
  {
    match code
    case Success => Progress(100, 0, 0, 0, 0, SUCCESS)
    case Cancel => Progress(0, 0, 0, 0, 0, CANCEL)
    case Failure => Progress(0, 0, 0, 0, 0, ERROR)
  }

  /** The steps of the `finally` block, and of the context's disposal at the
      end of its `using` scope. */
  datatype TeardownStep =
    | CancelTaskScope
    | CancelLinked
    | AwaitTask
    | ReportFinal(progress: Progress)
    | AppendProgress(progress: Progress)
    | AppendFinished(code: FinishCode, message: string)
    | CompleteOutbox
    | JoinFeeds
    | JoinWriter
    | DisposeContext

  /** The teardown in source order: cancel first; when a task was started,
      await it, report the final progress and append `Finished`; then
      complete the outbox, join the feeds, join the writer, dispose. */
  function TeardownPlan(running: Option<TaskHandle>, result: TaskResult): seq<TeardownStep> {
    var code := SettledCode(result);
    var finish :=
      if running.Some? then
        [AwaitTask, ReportFinal(FinalProgress(code)),
         AppendFinished(FinishCodeOf(code), "Finished with " + ExitCodeName(code))]
      else [];
    [CancelTaskScope, CancelLinked] + finish + [CompleteOutbox, JoinFeeds, JoinWriter, DisposeContext]
  }

  /** The position of the first occurrence of a step in a plan. */
  function IndexOf(plan: seq<TeardownStep>, step: TeardownStep): (i: nat)
    requires step in plan
    ensures i < |plan| && plan[i] == step && step !in plan[..i]
  {
    if plan[0] == step then 0
    else
      var i := IndexOf(plan[1..], step) + 1;
      assert plan[..i] == [plan[0]] + plan[1..][..i - 1];
      i
  }

  /** The order the teardown keeps: cancellation comes first; `Finished` is
      appended exactly when a task was started, and it is the last append
      before the outbox is completed; the feeds are joined before the writer,
      which is joined after the outbox is completed. */
  lemma {:induction false} TeardownOrder(running: Option<TaskHandle>, result: TaskResult)
    ensures var plan := TeardownPlan(running, result);
            && plan[0] == CancelTaskScope
            && ((exists i :: 0 <= i < |plan| && plan[i].AppendFinished?) <==> running.Some?)
            && (running.Some? ==>
                  var f := IndexOf(plan, AppendFinished(FinishCodeOf(SettledCode(result)),
                                                        "Finished with " + ExitCodeName(SettledCode(result))));
                  f + 1 == IndexOf(plan, CompleteOutbox))
            && IndexOf(plan, CompleteOutbox) < IndexOf(plan, JoinFeeds) < IndexOf(plan, JoinWriter)
  {
    var plan := TeardownPlan(running, result);
    var code := SettledCode(result);
    var fin := AppendFinished(FinishCodeOf(code), "Finished with " + ExitCodeName(code));
    if running.Some? {
      assert plan == [CancelTaskScope, CancelLinked, AwaitTask, ReportFinal(FinalProgress(code)), fin,
                      CompleteOutbox, JoinFeeds, JoinWriter, DisposeContext];
      assert plan[4] == fin && fin !in plan[..4];
      assert plan[5] == CompleteOutbox && CompleteOutbox !in plan[..5];
      assert plan[6] == JoinFeeds && JoinFeeds !in plan[..6];
      assert plan[7] == JoinWriter && JoinWriter !in plan[..7];
    } else {
      assert plan == [CancelTaskScope, CancelLinked, CompleteOutbox, JoinFeeds, JoinWriter, DisposeContext];
      assert plan[2] == CompleteOutbox && CompleteOutbox !in plan[..2];
      assert plan[3] == JoinFeeds && JoinFeeds !in plan[..3];
      assert plan[4] == JoinWriter && JoinWriter !in plan[..4];
    }
  }

  /** The effect of one teardown step. The `Finished` write does not observe
      the token, so it always lands while the outbox is open. */
  function Perform(s: Session, step: TeardownStep): Session {
    match step
    case CancelTaskScope => s.(ctx := TaskContext.Cancel(s.ctx))
    case CancelLinked => s.(ctx := TaskContext.Cancel(s.ctx))
    case AwaitTask => s
    case ReportFinal(p) => s.(ctx := ReportProgress(s.ctx, p))
    case AppendProgress(p) =>
      if s.outboxCompleted then s else Append(s, Msg(SingleTaskId, ProgressMsg(p)))
    case AppendFinished(code, message) =>
      if s.outboxCompleted then s else Append(s, Msg(SingleTaskId, Finished(code, message)))
    case CompleteOutbox => s.(outboxCompleted := true)
    case JoinFeeds => s.(feedsJoined := true)
    case JoinWriter => s.(writerJoined := true)
    case DisposeContext => s.(ctx := Dispose(s.ctx))
  }

  function PerformAll(s: Session, plan: seq<TeardownStep>): Session
    decreases |plan|
  {
    if |plan| == 0 then s else PerformAll(Perform(s, plan[0]), plan[1..])
  }

  /** The teardown of a session whose task, if any, ended with `result`. */
  function Teardown(s: Session, result: TaskResult): Session {
    PerformAll(s, TeardownPlan(s.running, result))
  }

  /** The teardown as intended: the final snapshot is written to the outbox
      directly, as `Finished` is, instead of into the progress slot whose
      feed has already stopped. */
  function IntendedTeardownPlan(running: Option<TaskHandle>, result: TaskResult): seq<TeardownStep> {
    var code := SettledCode(result);
    var finish :=
      if running.Some? then
        [AwaitTask, AppendProgress(FinalProgress(code)),
         AppendFinished(FinishCodeOf(code), "Finished with " + ExitCodeName(code))]
      else [];
    [CancelTaskScope, CancelLinked] + finish + [CompleteOutbox, JoinFeeds, JoinWriter, DisposeContext]
  }

  function IntendedTeardown(s: Session, result: TaskResult): Session {
    PerformAll(s, IntendedTeardownPlan(s.running, result))
  }

  /** Running a plan is running its first part, then its second. */
  lemma {:induction false} PerformAllAppend(s: Session, a: seq<TeardownStep>, b: seq<TeardownStep>)
    ensures PerformAll(s, a + b) == PerformAll(PerformAll(s, a), b)
    decreases |a|
  {
    if |a| > 0 {
      assert (a + b)[1..] == a[1..] + b;
      PerformAllAppend(Perform(s, a[0]), a[1..], b);
    } else {
      assert a + b == b;
    }
  }

  lemma PerformCons(s: Session, x: TeardownStep, rest: seq<TeardownStep>)
    ensures PerformAll(s, [x] + rest) == PerformAll(Perform(s, x), rest)
  {
    assert ([x] + rest)[1..] == rest;
  }

  /** The two cancellations that open the teardown. */
  lemma CancelSteps(s: Session)
    ensures PerformAll(s, [CancelTaskScope, CancelLinked]) == s.(ctx := TaskContext.Cancel(TaskContext.Cancel(s.ctx)))
  {
    PerformCons(s, CancelTaskScope, [CancelLinked]);
    assert [CancelTaskScope, CancelLinked] == [CancelTaskScope] + [CancelLinked];
  }

  /** Awaiting the task, the final report and the `Finished` append. */
  lemma FinishSteps(s: Session, p: Progress, code: FinishCode, message: string)
    requires !s.outboxCompleted
    ensures PerformAll(s, [AwaitTask, ReportFinal(p), AppendFinished(code, message)]) ==
              s.(ctx := ReportProgress(s.ctx, p), outbox := s.outbox + [Msg(SingleTaskId, Finished(code, message))])
  {
    var fin := AppendFinished(code, message);
    assert [AwaitTask, ReportFinal(p), fin] == [AwaitTask] + ([ReportFinal(p)] + ([fin] + []));
    PerformCons(s, AwaitTask, [ReportFinal(p)] + ([fin] + []));
    PerformCons(s, ReportFinal(p), [fin] + []);
    PerformCons(s.(ctx := ReportProgress(s.ctx, p)), fin, []);
  }

  /** Awaiting the task, then appending the final snapshot and `Finished`. */
  lemma IntendedFinishSteps(s: Session, p: Progress, code: FinishCode, message: string)
    requires !s.outboxCompleted
    ensures PerformAll(s, [AwaitTask, AppendProgress(p), AppendFinished(code, message)]) ==
              s.(outbox := s.outbox + [Msg(SingleTaskId, ProgressMsg(p)), Msg(SingleTaskId, Finished(code, message))])
  {
    var fin := AppendFinished(code, message);
    var s1 := Append(s, Msg(SingleTaskId, ProgressMsg(p)));
    assert [AwaitTask, AppendProgress(p), fin] == [AwaitTask] + ([AppendProgress(p)] + ([fin] + []));
    PerformCons(s, AwaitTask, [AppendProgress(p)] + ([fin] + []));
    PerformCons(s, AppendProgress(p), [fin] + []);
    PerformCons(s1, fin, []);
    assert s1.outbox + [Msg(SingleTaskId, Finished(code, message))]
        == s.outbox + [Msg(SingleTaskId, ProgressMsg(p)), Msg(SingleTaskId, Finished(code, message))];
  }

  /** Completing the outbox, joining the feeds and the writer, disposing. */
  lemma CloseSteps(s: Session)
    ensures PerformAll(s, [CompleteOutbox, JoinFeeds, JoinWriter, DisposeContext]) ==
              s.(outboxCompleted := true, feedsJoined := true, writerJoined := true, ctx := Dispose(s.ctx))
  {
    assert [CompleteOutbox, JoinFeeds, JoinWriter, DisposeContext] == [CompleteOutbox, JoinFeeds] + [JoinWriter, DisposeContext];
    PerformAllAppend(s, [CompleteOutbox, JoinFeeds], [JoinWriter, DisposeContext]);
    CompleteAndJoinFeeds(s);
    JoinWriterAndDispose(s.(outboxCompleted := true, feedsJoined := true));
  }

  lemma CompleteAndJoinFeeds(s: Session)
    ensures PerformAll(s, [CompleteOutbox, JoinFeeds]) == s.(outboxCompleted := true, feedsJoined := true)
  {
    PerformTwo(s, CompleteOutbox, JoinFeeds);
  }

  lemma JoinWriterAndDispose(s: Session)
    ensures PerformAll(s, [JoinWriter, DisposeContext]) == s.(writerJoined := true, ctx := Dispose(s.ctx))
  {
    var s1 := s.(writerJoined := true);
    PerformTwo(s, JoinWriter, DisposeContext);
    assert Perform(s, JoinWriter) == s1;
    assert Perform(s1, DisposeContext) == s1.(ctx := Dispose(s1.ctx));
  }

  /** A two-step plan is its two steps in order. */
  lemma PerformTwo(s: Session, x: TeardownStep, y: TeardownStep)
    ensures PerformAll(s, [x, y]) == Perform(Perform(s, x), y)
  {
    assert [x, y] == [x] + [y];
    PerformCons(s, x, [y]);
    assert [y] == [y] + [];
    PerformCons(Perform(s, x), y, []);
  }

  /** The state the teardown of a started session reaches. */
  lemma {:induction false} TeardownStarted(s: Session, result: TaskResult)
    requires s.running.Some? && !s.outboxCompleted
    ensures var code := SettledCode(result);
            Teardown(s, result) ==
              s.(ctx := Dispose(ReportProgress(TaskContext.Cancel(TaskContext.Cancel(s.ctx)), FinalProgress(code))),
                 outbox := s.outbox + [Msg(SingleTaskId, Finished(FinishCodeOf(code), "Finished with " + ExitCodeName(code)))],
                 outboxCompleted := true, feedsJoined := true, writerJoined := true)
  {
    var code := SettledCode(result);
    var fin := AppendFinished(FinishCodeOf(code), "Finished with " + ExitCodeName(code));
    var head := [CancelTaskScope, CancelLinked];
    var mid := [AwaitTask, ReportFinal(FinalProgress(code)), fin];
    var tail := [CompleteOutbox, JoinFeeds, JoinWriter, DisposeContext];
    assert TeardownPlan(s.running, result) == head + mid + tail;
    PerformAllAppend(s, head + mid, tail);
    PerformAllAppend(s, head, mid);
    CancelSteps(s);
    FinishSteps(PerformAll(s, head), FinalProgress(code), FinishCodeOf(code), "Finished with " + ExitCodeName(code));
    CloseSteps(PerformAll(s, head + mid));
  }

  /** The state the intended teardown of a started session reaches. */
  lemma {:induction false} IntendedTeardownStarted(s: Session, result: TaskResult)
    requires s.running.Some? && !s.outboxCompleted
    ensures var code := SettledCode(result);
            IntendedTeardown(s, result) ==
              s.(ctx := Dispose(TaskContext.Cancel(TaskContext.Cancel(s.ctx))),
                 outbox := s.outbox + [Msg(SingleTaskId, ProgressMsg(FinalProgress(code))),
                                       Msg(SingleTaskId, Finished(FinishCodeOf(code), "Finished with " + ExitCodeName(code)))],
                 outboxCompleted := true, feedsJoined := true, writerJoined := true)
  {
    var code := SettledCode(result);
    var fin := AppendFinished(FinishCodeOf(code), "Finished with " + ExitCodeName(code));
    var head := [CancelTaskScope, CancelLinked];
    var mid := [AwaitTask, AppendProgress(FinalProgress(code)), fin];
    var tail := [CompleteOutbox, JoinFeeds, JoinWriter, DisposeContext];
    assert IntendedTeardownPlan(s.running, result) == head + mid + tail;
    PerformAllAppend(s, head + mid, tail);
    PerformAllAppend(s, head, mid);
    CancelSteps(s);
    IntendedFinishSteps(PerformAll(s, head), FinalProgress(code), FinishCodeOf(code), "Finished with " + ExitCodeName(code));
    CloseSteps(PerformAll(s, head + mid));
  }

  /** The state the teardown of a session without a task reaches. */
  lemma {:induction false} TeardownNotStarted(s: Session, result: TaskResult)
    requires s.running.None?
    ensures Teardown(s, result) ==
              s.(ctx := Dispose(TaskContext.Cancel(TaskContext.Cancel(s.ctx))),
                 outboxCompleted := true, feedsJoined := true, writerJoined := true)
  {
    var tail := [CompleteOutbox, JoinFeeds, JoinWriter, DisposeContext];
    assert TeardownPlan(s.running, result) == [CancelTaskScope, CancelLinked] + tail;
    PerformAllAppend(s, [CancelTaskScope, CancelLinked], tail);
    CancelSteps(s);
    CloseSteps(PerformAll(s, [CancelTaskScope, CancelLinked]));
  }

  /** What the teardown leaves: the outbox gained exactly one `Finished`
      when a task was started (and nothing otherwise) and is completed;
      every feed and the writer are joined; the context is disposed with no
      dialog pending and no waiter still waiting; the final snapshot matches
      the exit code. */
  lemma {:induction false} TeardownResult(s: Session, result: TaskResult)
    requires Running(s)
    ensures var r := Teardown(s, result);
            var code := SettledCode(result);
            && r.outboxCompleted && r.feedsJoined && r.writerJoined
            && (s.running.Some? ==>
                  && r.outbox == s.outbox + [Msg(SingleTaskId, Finished(FinishCodeOf(code), "Finished with " + ExitCodeName(code)))]
                  && r.ctx.progress == Some(FinalProgress(code)))
            && (s.running.None? ==> r.outbox == s.outbox)
            && r.ctx.cancelled && r.ctx.closed && r.ctx.pending == map[]
            && (forall h :: 0 <= h < |r.ctx.waiters| ==> r.ctx.waiters[h] != Waiting)
            && r.running == s.running
  {
    var code := SettledCode(result);
    var c1 := TaskContext.Cancel(s.ctx);
    CancelReleasesAll(s.ctx);
    assert TaskContext.Cancel(c1) == c1;
    if s.running.Some? {
      TeardownStarted(s, result);
      var c2 := ReportProgress(c1, FinalProgress(code));
      assert Valid(c2) && c2.cancelled && !c2.closed;
      assert TaskContext.Cancel(c2) == c2;
    } else {
      TeardownNotStarted(s, result);
    }
  }

  /** AS WRITTEN, the final snapshot never reaches the outbox: the teardown
      puts it into the progress slot after the feeds' token is cancelled, so
      the outbox gains only `Finished`, the snapshot stays in the slot, and
      the progress feed never moves it. */
  lemma AsWrittenFinalProgressStranded(s: Session, result: TaskResult)
    requires Running(s) && s.running.Some?
    ensures var r := Teardown(s, result);
            var code := SettledCode(result);
            && |r.outbox| == |s.outbox| + 1
            && r.outbox[|s.outbox|].body.Finished?
            && r.ctx.progress == Some(FinalProgress(code))
            && FeedProgress(r) == r
  {
    TeardownResult(s, result);
    NothingAfterTeardown(s, result);
  }

  /** As intended, the final snapshot matching the exit code is delivered
      just before `Finished`, and the teardown otherwise ends as written. */
  lemma IntendedTeardownDeliversFinal(s: Session, result: TaskResult)
    requires Running(s)
    ensures var r := IntendedTeardown(s, result);
            var code := SettledCode(result);
            && r.outboxCompleted && r.feedsJoined && r.writerJoined
            && (s.running.Some? ==>
                  r.outbox == s.outbox + [Msg(SingleTaskId, ProgressMsg(FinalProgress(code))),
                                          Msg(SingleTaskId, Finished(FinishCodeOf(code), "Finished with " + ExitCodeName(code)))])
            && (s.running.None? ==> r == Teardown(s, result))
            && r.ctx.cancelled && r.ctx.closed && r.ctx.pending == map[]
            && r.running == s.running
  {
    if s.running.Some? {
      IntendedTeardownStarted(s, result);
      CancelReleasesAll(s.ctx);
      assert TaskContext.Cancel(TaskContext.Cancel(s.ctx)) == TaskContext.Cancel(s.ctx);
    } else {
      assert IntendedTeardownPlan(s.running, result) == TeardownPlan(s.running, result);
      TeardownResult(s, result);
    }
  }

  /** Once torn down, the feeds append nothing more: `Finished` stays last. */
  lemma NothingAfterTeardown(s: Session, result: TaskResult)
    requires Running(s)
    ensures var r := Teardown(s, result);
            FeedDialog(r) == r && FeedEvent(r) == r && FeedProgress(r) == r
  {
    TeardownResult(s, result);
  }

  /** A whole session: a run of steps, then the intended teardown. */
  function Serve(steps: seq<Step>, result: TaskResult): Session {
    InitialValid();
    IntendedTeardown(RunSteps(NewSession, steps), result)
  }

  /** Every session that started a task ends its outbox with exactly one
      `Finished`, whose code matches the task's exit code, just after the
      final snapshot; a session that never started one appends no
      `Finished` at all. */
  lemma {:induction false} FinishedIsLast(steps: seq<Step>, result: TaskResult)
    ensures var r := Serve(steps, result);
            var started := RunSteps(NewSession, steps).running.Some?;
            && (started <==> CountFinished(r.outbox) == 1)
            && (!started ==> CountFinished(r.outbox) == 0)
            && (started ==> r.outbox[|r.outbox| - 1].body == Finished(FinishCodeOf(SettledCode(result)),
                                                                     "Finished with " + ExitCodeName(SettledCode(result))))
            && (started ==> |r.outbox| >= 2 && r.outbox[|r.outbox| - 2].body == ProgressMsg(FinalProgress(SettledCode(result))))
  {
    InitialValid();
    var s := RunSteps(NewSession, steps);
    IntendedTeardownDeliversFinal(s, result);
    if s.running.Some? {
      var code := SettledCode(result);
      var pm := Msg(SingleTaskId, ProgressMsg(FinalProgress(code)));
      var fm := Msg(SingleTaskId, Finished(FinishCodeOf(code), "Finished with " + ExitCodeName(code)));
      CountAppend(s.outbox, pm);
      CountAppend(s.outbox + [pm], fm);
      assert s.outbox + [pm, fm] == (s.outbox + [pm]) + [fm];
    } else {
      TeardownResult(s, result);
    }
  }
}
