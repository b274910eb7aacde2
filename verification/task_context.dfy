/** The context one dump task talks to (Greeter/Server/Services/DumpTaskContext.cs):
    the dialog broker with its table of pending dialogs, the event sink, the
    single-slot progress sink and the session's cancellation signal.

    The broker's `AskAsync` suspends its caller, so it is split into the part
    that runs before the suspension (`AskBegin`) and the part that runs when the
    waiter has been completed (`AskEnd`). Everything a concurrent caller could
    do in between is one of the operations of `Op`. */
module TaskContext {
  import opened Common
  import opened Text

  // ---------- records and enums ----------

  /** `EventLevelModel`: INFO = 1, WARN = 2, ERROR = 3. */
  datatype EventLevel = Info | Warn | Error

  /** `EventModel`; `timeUtc` is an opaque clock reading. */
  datatype Event = Event(
    level: EventLevel,
    message: string,
    stage: Option<string>,
    code: Option<string>,
    timeUtc: int)

  /** `ProgressStateModel`: WAITING = 1, RUNNING = 2, SUCCESS = 3, ERROR = 4, CANCEL = 5. */
  datatype ProgressState = WAITING | RUNNING | SUCCESS | ERROR | CANCEL

  /** `ProgressModel`; the percent is an integer in this model. */
  datatype Progress = Progress(
    percent: int,
    currentBytes: int,
    totalBytes: int,
    bps: int,
    etaSec: int,
    state: ProgressState)

  /** `DialogRequestModel`. */
  datatype DialogRequest = DialogRequest(
    dialogId: string,
    title: string,
    message: string,
    kind: int,
    payloadJson: string,
    timeoutSec: int)

  /** `DialogResponseModel`. */
  datatype DialogResponse = DialogResponse(dialogId: string, result: int, payloadJson: string)

  /** `Guid.NewGuid().ToString("N")`: 32 lower-case hexadecimal digits. */
  predicate IsGuidText(s: string) {
    |s| == 32 && forall i :: 0 <= i < |s| ==> ('0' <= s[i] <= '9' || 'a' <= s[i] <= 'f')
  }

  /** The fresh identifiers the context draws; which one is drawn is an input. */
  type GuidText = s: string | IsGuidText(s) witness "00000000000000000000000000000000"

  /** A fresh identifier is never blank, so it can stand in for a blank one. */
  lemma GuidNotBlank(g: GuidText)
    ensures !IsBlank(g)
  {
    assert !IsWhiteSpace(g[0]);
  }

  // ---------- state ----------

  /** The one-shot completion an asking caller waits on (`TaskCompletionSource`). */
  datatype Waiter = Waiting | Answered(response: DialogResponse) | Cancelled

  /** The context's state.
      - `pending`: dialog id to the handle of the waiter registered under it;
      - `waiters`: every waiter ever created, by handle;
      - `dialogs`, `events`: what the dialog and event feeds have not read yet;
      - `progress`: the single progress slot;
      - `cancelled`: the session's cancellation signal (the task scope linked
        with the transport's own);
      - `closed`: the three sinks have been completed by `Dispose`. */
  datatype Ctx = Ctx(
    pending: map<string, nat>,
    waiters: seq<Waiter>,
    dialogs: seq<DialogRequest>,
    events: seq<Event>,
    progress: Option<Progress>,
    cancelled: bool,
    closed: bool)

  /** A newly constructed context. */
  const Initial: Ctx := Ctx(map[], [], [], [], None, false, false)

  /** The waiter handles the pending table still refers to. */
  function PendingHandles(c: Ctx): set<nat> {
    set id | id in c.pending :: c.pending[id]
  }

  /** Every handle in the pending table names a waiter that exists: the
      table holds references to completion objects, never dangling ones. */
  predicate HandlesInRange(c: Ctx) {
    forall id :: id in c.pending ==> c.pending[id] < |c.waiters|
  }

  /** The broker's invariant: the pending table refers to exactly the waiters
      still waiting, each under one non-blank id; once cancellation has fired
      nothing is pending; the sinks are only closed after cancellation. */
  predicate Valid(c: Ctx) {
    && (forall id :: id in c.pending ==> c.pending[id] < |c.waiters| && c.waiters[c.pending[id]] == Waiting)
    && (forall id :: id in c.pending ==> !IsBlank(id))
    && (forall id1, id2 :: id1 in c.pending && id2 in c.pending && c.pending[id1] == c.pending[id2] ==> id1 == id2)
    && (forall h :: 0 <= h < |c.waiters| && c.waiters[h] == Waiting ==> h in PendingHandles(c))
    && (c.cancelled ==> |c.pending| == 0)
    && (c.closed ==> c.cancelled)
  }

  lemma InitialValid()
    ensures Valid(Initial)
  {
  }

  // ---------- dialogs ----------

  /** Why an `AskAsync` fails. */
  datatype AskError = DuplicateDialogId(id: string) | OperationCanceled | ChannelClosed

  /** What an `AskAsync` returns to its caller. */
  datatype AskResult = Response(response: DialogResponse) | AskFailed(error: AskError)

  /** The state `AskAsync` reaches before it suspends: either the request
      was published and the caller waits on waiter `handle`, or the call
      already failed. */
  datatype AskStart =
    | Published(ctx: Ctx, request: DialogRequest, handle: nat)
    | Rejected(ctx: Ctx, error: AskError)
  {
    function Ctx(): Ctx {
      match this
      case Published(c, _, _) => c
      case Rejected(c, _) => c
    }
  }

  /** The id a request is asked under: a blank id is replaced by a fresh one. */
  function AskId(req: DialogRequest, guid: GuidText): (id: string)
    ensures !IsBlank(id)
    ensures !IsBlank(req.dialogId) ==> id == req.dialogId
  {
    GuidNotBlank(guid);
    if IsBlank(req.dialogId) then guid else req.dialogId
  }

  /** `AskAsync` up to its suspension: normalise the id, register a waiter
      under it unless it is taken, register the cancellation callback (which
      runs at once when cancellation has already fired), then publish the
      request on the dialog feed. */
  function AskBegin(c: Ctx, req: DialogRequest, guid: GuidText): (r: AskStart)
    ensures var id := AskId(req, guid);
            id in c.pending <==> r == Rejected(c, DuplicateDialogId(id))
    ensures r.Published? ==>
              && r.request == req.(dialogId := AskId(req, guid))
              && r.request.dialogId !in c.pending
              && r.handle == |c.waiters|
              && r.ctx.pending == c.pending[r.request.dialogId := r.handle]
              && r.ctx.waiters == c.waiters + [Waiting]
              && r.ctx.dialogs == c.dialogs + [r.request]
              && r.ctx.events == c.events && r.ctx.progress == c.progress
              && r.ctx.cancelled == c.cancelled && r.ctx.closed == c.closed
    ensures r.Rejected? && r.error == OperationCanceled ==>
              && c.cancelled
              && r.ctx == c.(waiters := c.waiters + [Cancelled])
    ensures c.cancelled ==> r.Rejected?
    ensures var id := AskId(req, guid);
            c.cancelled && id !in c.pending ==>
              r == Rejected(c.(waiters := c.waiters + [Cancelled]), OperationCanceled)
  {
    var id := AskId(req, guid);
    var request := req.(dialogId := id);
    if id in c.pending then
      Rejected(c, DuplicateDialogId(id))
    else
      var h := |c.waiters|;
      var registered := c.(pending := c.pending[id := h], waiters := c.waiters + [Waiting]);
      if c.cancelled then
        // the callback removes the entry and cancels the waiter; the write
        // to the dialog feed then observes the cancelled token
        Rejected(registered.(pending := c.pending, waiters := c.waiters + [Cancelled]), OperationCanceled)
      else if c.closed then
        Rejected(registered, ChannelClosed)
      else
        Published(registered.(dialogs := c.dialogs + [request]), request, h)
  }

  /** What the awaited waiter hands back to the asking caller. */
  function WaiterResult(w: Waiter): (r: AskResult)
    requires w != Waiting
    ensures r.Response? ==> w == Answered(r.response)
    ensures r.AskFailed? ==> w == Cancelled && r.error == OperationCanceled
  {
    match w
    case Answered(resp) => Response(resp)
    case Cancelled => AskFailed(OperationCanceled)
  }

  /** The rest of `AskAsync` AS WRITTEN: once waiter `h` has completed, the
      `finally` removes whatever entry is registered under the id, which by
      then may belong to a later `AskAsync` that reused the id. */
  function AskEndAsWritten(c: Ctx, id: string, h: nat): (r: (Ctx, AskResult))
    requires h < |c.waiters| && c.waiters[h] != Waiting
    ensures id !in r.0.pending && r.0.waiters == c.waiters
    ensures Valid(c) && id in c.pending && c.pending[id] != h ==> !Valid(r.0)
    ensures r.1 == WaiterResult(c.waiters[h])
  {
    var c' := c.(pending := c.pending - {id});
    assert Valid(c) && id in c.pending && c.pending[id] != h ==> !Valid(c') by {
      if Valid(c) && id in c.pending && c.pending[id] != h {
        OrphanedWaiter(c, id);
      }
    }
    (c', WaiterResult(c.waiters[h]))
  }

  /** Removing a valid table's entry leaves its waiter waiting with nothing
      referring to it. */
  lemma OrphanedWaiter(c: Ctx, id: string)
    requires Valid(c) && id in c.pending
    ensures !Valid(c.(pending := c.pending - {id}))
  {
    var c' := c.(pending := c.pending - {id});
    var k := c.pending[id];
    forall id' | id' in c'.pending
      ensures c'.pending[id'] != k
    {
      assert c.pending[id'] == c'.pending[id'];
    }
    assert k !in PendingHandles(c');
  }

  /** The rest of `AskAsync` as intended: the `finally` removes the entry
      under the id only while it is still this call's own waiter. */
  function AskEnd(c: Ctx, id: string, h: nat): (r: (Ctx, AskResult))
    requires h < |c.waiters| && c.waiters[h] != Waiting
    ensures !(id in r.0.pending && r.0.pending[id] == h)
    ensures forall other :: other in c.pending && c.pending[other] != h ==>
              other in r.0.pending && r.0.pending[other] == c.pending[other]
    ensures r.0 == c.(pending := r.0.pending) && r.0.pending.Keys <= c.pending.Keys
    ensures Valid(c) ==> Valid(r.0)
    ensures r.1 == WaiterResult(c.waiters[h])
  {
    var c' := if id in c.pending && c.pending[id] == h then c.(pending := c.pending - {id}) else c;
    assert Valid(c) && id in c.pending ==> c.waiters[c.pending[id]] == Waiting;
    (c', WaiterResult(c.waiters[h]))
  }

  /** `TrySetResult` / `TrySetCanceled`: completes waiter `h` unless it has
      already completed. */
  function TryComplete(ws: seq<Waiter>, h: nat, w: Waiter): (r: seq<Waiter>)
    requires h < |ws| && w != Waiting
    ensures |r| == |ws| && r[h] != Waiting
    ensures forall k :: 0 <= k < |ws| && k != h ==> r[k] == ws[k]
    ensures ws[h] != Waiting ==> r[h] == ws[h]
    ensures ws[h] == Waiting ==> r[h] == w
  {
    if ws[h] == Waiting then ws[h := w] else ws
  }

  /** `SetDialogResult`: a blank or unknown id is ignored; a pending id is
      removed and its waiter completed with the response. */
  function SetDialogResult(c: Ctx, resp: DialogResponse): (r: Ctx)
    requires HandlesInRange(c)
    ensures IsBlank(resp.dialogId) || resp.dialogId !in c.pending ==> r == c
    ensures !IsBlank(resp.dialogId) && resp.dialogId in c.pending ==>
              var h := c.pending[resp.dialogId];
              && r.pending == c.pending - {resp.dialogId}
              && |r.waiters| == |c.waiters|
              && r.waiters[h] == (if c.waiters[h] == Waiting then Answered(resp) else c.waiters[h])
              && (forall h' :: 0 <= h' < |c.waiters| && h' != h ==> r.waiters[h'] == c.waiters[h'])
              && r == c.(pending := r.pending, waiters := r.waiters)
  {
    if IsBlank(resp.dialogId) || resp.dialogId !in c.pending then c
    else
      var h := c.pending[resp.dialogId];
      c.(pending := c.pending - {resp.dialogId}, waiters := TryComplete(c.waiters, h, Answered(resp)))
  }

  /** Cancelling the session's token: the first time, every registered
      callback removes its entry and cancels its waiter; later times do nothing. */
  function Cancel(c: Ctx): (r: Ctx)
    ensures r.cancelled
    ensures c.cancelled ==> r == c
    ensures !c.cancelled ==>
              && r.pending == map[]
              && |r.waiters| == |c.waiters|
              && (forall h :: 0 <= h < |c.waiters| ==>
                    r.waiters[h] == (if h in PendingHandles(c) && c.waiters[h] == Waiting then Cancelled else c.waiters[h]))
              && r.dialogs == c.dialogs && r.events == c.events && r.progress == c.progress
              && r.closed == c.closed
  {
    if c.cancelled then c
    else
      var handles := PendingHandles(c);
      var ws := seq(|c.waiters|, h requires 0 <= h < |c.waiters| =>
                    if h in handles && c.waiters[h] == Waiting then Cancelled else c.waiters[h]);
      c.(pending := map[], waiters := ws, cancelled := true)
  }

  // ---------- events and progress ----------

  /** `WriteEvent`: appends the event stamped with the time of writing;
      dropped without error once the sink is closed. */
  function WriteEvent(c: Ctx, e: Event, now: int): (r: Ctx)
    ensures r.(events := c.events) == c
    ensures !c.closed ==>
              && |r.events| == |c.events| + 1 && r.events[..|c.events|] == c.events
              && r.events[|c.events|].timeUtc == now
              && r.events[|c.events|].(timeUtc := e.timeUtc) == e
    ensures c.closed ==> r == c
  {
    if c.closed then c else c.(events := c.events + [e.(timeUtc := now)])
  }

  /** `LogInfo` / `LogWarn` / `LogError`. */
  function Log(c: Ctx, level: EventLevel, message: string, stage: Option<string>, code: Option<string>, now: int): (r: Ctx)
    ensures !c.closed ==> r.events == c.events + [Event(level, message, stage, code, now)]
    ensures r.(events := c.events) == c
    ensures c.closed ==> r == c
  {
    WriteEvent(c, Event(level, message, stage, code, now), now)
  }

  /** `ReportProgress`: the slot holds only the latest report (a capacity-one
      channel that drops the oldest item); dropped once the sink is closed. */
  function ReportProgress(c: Ctx, p: Progress): (r: Ctx)
    ensures !c.closed ==> TakeProgress(r).0 == Some(p)
    ensures r.(progress := c.progress) == c
    ensures c.closed ==> r == c
  {
    if c.closed then c else c.(progress := Some(p))
  }

  /** `Dispose`: cancel, then complete the three sinks. */
  function Dispose(c: Ctx): (r: Ctx)
    ensures r.cancelled && r.closed
    ensures Valid(c) ==>
              && Valid(r) && r.pending == map[]
              && forall h :: 0 <= h < |r.waiters| ==> r.waiters[h] != Waiting
    ensures |r.waiters| == |c.waiters|
    ensures r.dialogs == c.dialogs && r.events == c.events && r.progress == c.progress
  {
    var r := Cancel(c).(closed := true);
    assert Valid(c) ==> Valid(r) && r.pending == map[] by {
      if Valid(c) {
        CancelReleasesAll(c);
      }
    }
    r
  }

  /** After cancellation no caller is left waiting: every waiter the table
      referred to has been cancelled and the table is empty. */
  lemma CancelReleasesAll(c: Ctx)
    requires Valid(c)
    ensures Valid(Cancel(c))
    ensures forall h :: 0 <= h < |Cancel(c).waiters| ==> Cancel(c).waiters[h] != Waiting
    ensures Cancel(c).pending == map[]
  {
    var c' := Cancel(c);
    forall h | 0 <= h < |c'.waiters|
      ensures c'.waiters[h] != Waiting
    {
      if !c.cancelled && c.waiters[h] == Waiting {
        assert h in PendingHandles(c);
      }
    }
  }

  // ---------- the feeds' side ----------

  /** One read of the dialog feed. */
  function TakeDialog(c: Ctx): (r: (Option<DialogRequest>, Ctx))
    ensures r.0.None? <==> |c.dialogs| == 0
    ensures r.0.Some? ==> c.dialogs == [r.0.value] + r.1.dialogs
    ensures r.1.(dialogs := c.dialogs) == c
  {
    if |c.dialogs| == 0 then (None, c) else (Some(c.dialogs[0]), c.(dialogs := c.dialogs[1..]))
  }

  /** One read of the event feed. */
  function TakeEvent(c: Ctx): (r: (Option<Event>, Ctx))
    ensures r.0.None? <==> |c.events| == 0
    ensures r.0.Some? ==> c.events == [r.0.value] + r.1.events
    ensures r.1.(events := c.events) == c
  {
    if |c.events| == 0 then (None, c) else (Some(c.events[0]), c.(events := c.events[1..]))
  }

  /** One read of the progress feed: empties the slot. */
  function TakeProgress(c: Ctx): (r: (Option<Progress>, Ctx))
    ensures r.1.progress.None? && r.1.(progress := r.0) == c
  {
    (c.progress, c.(progress := None))
  }
}

/** What the context promises across all interleavings of its callers. */
module TaskContextProperties {
  import opened Common
  import opened Text
  import opened TaskContext

  /** Every call a task body, a feed or the session can make on the context
      between two others; `AskDone` is the continuation of an `AskAsync`
      whose waiter has completed. */
  datatype Op =
    | Ask(req: DialogRequest, guid: GuidText)
    | AskDone(id: string, handle: nat)
    | Answer(response: DialogResponse)
    | CancelToken
    | WriteLog(level: EventLevel, message: string, stage: Option<string>, code: Option<string>, now: int)
    | Report(progress: Progress)
    | ReadDialog
    | ReadEvent
    | ReadProgress
    | DisposeContext

  /** The effect of one call, with `AskAsync`'s `finally` as intended. */
  function Apply(c: Ctx, op: Op): Ctx
    requires HandlesInRange(c)
  {
    match op
    case Ask(req, guid) => AskBegin(c, req, guid).Ctx()
    case AskDone(id, h) =>
      if h < |c.waiters| && c.waiters[h] != Waiting then AskEnd(c, id, h).0 else c
    case Answer(resp) => SetDialogResult(c, resp)
    case CancelToken => Cancel(c)
    case WriteLog(level, message, stage, code, now) => Log(c, level, message, stage, code, now)
    case Report(p) => ReportProgress(c, p)
    case ReadDialog => TakeDialog(c).1
    case ReadEvent => TakeEvent(c).1
    case ReadProgress => TakeProgress(c).1
    case DisposeContext => Dispose(c)
  }

  lemma AskBeginPreservesValid(c: Ctx, req: DialogRequest, guid: GuidText)
    requires Valid(c)
    ensures Valid(AskBegin(c, req, guid).Ctx())
  {
    var r := AskBegin(c, req, guid);
    if r.Published? {
      var c' := r.ctx;
      var id := r.request.dialogId;
      forall h | 0 <= h < |c'.waiters| && c'.waiters[h] == Waiting
        ensures h in PendingHandles(c')
      {
        if h == r.handle {
          assert c'.pending[id] == h;
        } else {
          assert c.waiters[h] == Waiting;
          var id' :| id' in c.pending && c.pending[id'] == h;
          assert c'.pending[id'] == h;
        }
      }
    }
  }

  lemma SetDialogResultPreservesValid(c: Ctx, resp: DialogResponse)
    requires Valid(c)
    ensures Valid(SetDialogResult(c, resp))
  {
    var c' := SetDialogResult(c, resp);
    if !IsBlank(resp.dialogId) && resp.dialogId in c.pending {
      var h := c.pending[resp.dialogId];
      forall h' | 0 <= h' < |c'.waiters| && c'.waiters[h'] == Waiting
        ensures h' in PendingHandles(c')
      {
        var id' :| id' in c.pending && c.pending[id'] == h';
        assert id' != resp.dialogId;
        assert c'.pending[id'] == h';
      }
    }
  }

  /** Once a waiter has completed, the pending table no longer refers to it,
      so the intended `finally` of `AskAsync` has nothing left to remove. */
  lemma AskEndLeavesNothing(c: Ctx, id: string, h: nat)
    requires Valid(c)
    requires h < |c.waiters| && c.waiters[h] != Waiting
    ensures AskEnd(c, id, h).0 == c
    ensures h !in PendingHandles(AskEnd(c, id, h).0)
  {
    if h in PendingHandles(c) {
      assert false;
    }
  }

  /** The broker's invariant survives every call in every order. */
  lemma ApplyPreservesValid(c: Ctx, op: Op)
    requires Valid(c)
    ensures Valid(Apply(c, op))
  {
    match op
    case Ask(req, guid) => AskBeginPreservesValid(c, req, guid);
    case AskDone(id, h) =>
      if h < |c.waiters| && c.waiters[h] != Waiting {
        AskEndLeavesNothing(c, id, h);
      }
    case Answer(resp) => SetDialogResultPreservesValid(c, resp);
    case CancelToken => CancelReleasesAll(c);
    case DisposeContext => CancelReleasesAll(c);
    case WriteLog(level, message, stage, code, now) =>
      SameBrokerValid(c, Log(c, level, message, stage, code, now));
    case Report(p) => SameBrokerValid(c, ReportProgress(c, p));
    case ReadDialog => SameBrokerValid(c, TakeDialog(c).1);
    case ReadEvent => SameBrokerValid(c, TakeEvent(c).1);
    case ReadProgress => SameBrokerValid(c, TakeProgress(c).1);
  }

  /** A call that leaves the broker's table, waiters and signals alone keeps the invariant. */
  lemma SameBrokerValid(c: Ctx, c': Ctx)
    requires Valid(c)
    requires c'.pending == c.pending && c'.waiters == c.waiters
    requires c'.cancelled == c.cancelled && c'.closed == c.closed
    ensures Valid(c')
  {
    assert PendingHandles(c') == PendingHandles(c);
  }

  /** A waiter completes at most once: whatever happens afterwards, a
      completed waiter keeps its answer or its cancellation. */
  lemma CompletedWaiterStays(c: Ctx, op: Op, h: nat)
    requires Valid(c)
    requires h < |c.waiters| && c.waiters[h] != Waiting
    ensures h < |Apply(c, op).waiters| && Apply(c, op).waiters[h] == c.waiters[h]
  {
    match op
    case Answer(resp) =>
      if !IsBlank(resp.dialogId) && resp.dialogId in c.pending {
        assert c.pending[resp.dialogId] != h;
      }
    case _ =>
  }

  /** Only `Dispose` completes the sinks; no other call closes them. */
  lemma OnlyDisposeCloses(c: Ctx, op: Op)
    requires HandlesInRange(c)
    ensures Apply(c, op).closed <==> c.closed || op.DisposeContext?
  {
    match op
    case Ask(req, guid) =>
      var r := AskBegin(c, req, guid);
      if r.Rejected? && r.error == OperationCanceled {
        assert r.ctx.closed == c.closed;
      }
    case _ =>
  }

  /** The effect of a sequence of calls. */
  function ApplyAll(c: Ctx, ops: seq<Op>): (r: Ctx)
    requires Valid(c)
    ensures Valid(r)
    decreases |ops|
  {
    if |ops| == 0 then c
    else
      ApplyPreservesValid(c, ops[0]);
      ApplyAll(Apply(c, ops[0]), ops[1..])
  }

  /** Every `AskAsync` ends exactly one way: after any interleaving that ends
      with the session disposing the context, no waiter is still waiting and
      the pending table is empty. */
  lemma {:induction false} NoWaiterOutlivesDispose(c: Ctx, ops: seq<Op>)
    requires Valid(c)
    ensures var r := Dispose(ApplyAll(c, ops));
            r.pending == map[] && forall h :: 0 <= h < |r.waiters| ==> r.waiters[h] != Waiting
  {
    CancelReleasesAll(ApplyAll(c, ops));
  }

  /** Resolve and cancellation race for a pending waiter: whichever removes
      the entry first decides how the waiter completes. */
  lemma AnswerThenCancel(c: Ctx, resp: DialogResponse)
    requires Valid(c)
    requires !IsBlank(resp.dialogId) && resp.dialogId in c.pending
    ensures var h := c.pending[resp.dialogId];
            Cancel(SetDialogResult(c, resp)).waiters[h] == Answered(resp)
  {
    var h := c.pending[resp.dialogId];
    var c' := SetDialogResult(c, resp);
    if !c'.cancelled {
      assert c'.waiters[h] != Waiting;
    }
  }

  lemma CancelThenAnswer(c: Ctx, resp: DialogResponse)
    requires Valid(c)
    requires !IsBlank(resp.dialogId) && resp.dialogId in c.pending
    ensures var h := c.pending[resp.dialogId];
            SetDialogResult(Cancel(c), resp).waiters[h] == Cancelled
  {
    var h := c.pending[resp.dialogId];
    assert h in PendingHandles(c);
  }

  /** A response whose id is blank or not pending changes nothing at all:
      no entry is created, no waiter is completed. */
  lemma StaleAnswerIsNoOp(c: Ctx, resp: DialogResponse)
    requires HandlesInRange(c)
    requires IsBlank(resp.dialogId) || resp.dialogId !in c.pending
    ensures SetDialogResult(c, resp) == c
  {
  }

  /** Asking under an id that is already pending fails and leaves the whole
      context, including the existing waiter and the dialog feed, untouched. */
  lemma DuplicateAskChangesNothing(c: Ctx, req: DialogRequest, guid: GuidText)
    requires !IsBlank(req.dialogId) && req.dialogId in c.pending
    ensures AskBegin(c, req, guid) == Rejected(c, DuplicateDialogId(req.dialogId))
  {
  }

  /** One dialog round trip: a caller asks under a free id, the client
      answers under the id the request was published with, and the caller
      receives exactly that answer; the pending table is then back to what
      it was before the ask and the invariant still holds. */
  lemma AnsweredAskRoundTrip(c: Ctx, req: DialogRequest, guid: GuidText, result: int, payload: string)
    requires Valid(c) && !c.cancelled && !c.closed
    requires AskId(req, guid) !in c.pending
    ensures var a := AskBegin(c, req, guid);
            && a.Published?
            && var resp := DialogResponse(a.request.dialogId, result, payload);
               var c1 := SetDialogResult(a.ctx, resp);
               && a.handle < |c1.waiters| && c1.waiters[a.handle] == Answered(resp)
               && var e := AskEnd(c1, a.request.dialogId, a.handle);
               && e.1 == Response(resp)
               && Valid(e.0)
               && e.0.pending == c.pending
               && e.0.dialogs == c.dialogs + [a.request]
  {
    var a := AskBegin(c, req, guid);
    AskBeginPreservesValid(c, req, guid);
    var id := a.request.dialogId;
    var resp := DialogResponse(id, result, payload);
    AnswerOwnAsk(a.ctx, id, a.handle, resp);
    var c1 := SetDialogResult(a.ctx, resp);
    assert c1.pending == c.pending by {
      assert a.ctx.pending == c.pending[id := a.handle];
    }
    AskEndLeavesNothing(c1, id, a.handle);
  }

  /** Answering a pending ask under its own id completes exactly its waiter
      and removes exactly its entry. */
  lemma AnswerOwnAsk(c: Ctx, id: string, h: nat, resp: DialogResponse)
    requires Valid(c) && id in c.pending && c.pending[id] == h && resp.dialogId == id
    ensures var c1 := SetDialogResult(c, resp);
            && Valid(c1)
            && h < |c1.waiters| && c1.waiters[h] == Answered(resp)
            && c1.pending == c.pending - {id}
            && c1.dialogs == c.dialogs
  {
    SetDialogResultPreservesValid(c, resp);
  }

  /** The other way an ask ends: the session is cancelled while the caller
      waits, and the caller receives the cancellation with nothing left in
      the table. */
  lemma CancelledAskRoundTrip(c: Ctx, req: DialogRequest, guid: GuidText)
    requires Valid(c) && !c.cancelled && !c.closed
    requires AskId(req, guid) !in c.pending
    ensures var a := AskBegin(c, req, guid);
            && a.Published?
            && a.handle < |Cancel(a.ctx).waiters| && Cancel(a.ctx).waiters[a.handle] == Cancelled
            && var e := AskEnd(Cancel(a.ctx), a.request.dialogId, a.handle);
               && e.1 == AskFailed(OperationCanceled)
               && Valid(e.0)
               && e.0.pending == map[]
  {
    var a := AskBegin(c, req, guid);
    AskBeginPreservesValid(c, req, guid);
    assert a.ctx.pending[a.request.dialogId] == a.handle;
    assert a.handle in PendingHandles(a.ctx);
    CancelReleasesAll(a.ctx);
  }

  /** The reports a task body makes, in order. */
  function ReportAll(c: Ctx, ps: seq<Progress>): Ctx
    decreases |ps|
  {
    if |ps| == 0 then c else ReportAll(ReportProgress(c, ps[0]), ps[1..])
  }

  /** However many snapshots are reported between two reads of the progress
      feed, the reader sees only the last one. */
  lemma {:induction false} ProgressKeepsLatest(c: Ctx, ps: seq<Progress>)
    requires !c.closed && |ps| > 0
    ensures TakeProgress(ReportAll(c, ps)).0 == Some(ps[|ps| - 1])
    ensures ReportAll(c, ps) == c.(progress := Some(ps[|ps| - 1]))
    decreases |ps|
  {
    if |ps| > 1 {
      ProgressKeepsLatest(ReportProgress(c, ps[0]), ps[1..]);
    }
  }

  /** The events a task body writes, in order, each with its clock reading. */
  function WriteAll(c: Ctx, es: seq<Event>, times: seq<int>): Ctx
    requires |es| == |times|
    decreases |es|
  {
    if |es| == 0 then c else WriteAll(WriteEvent(c, es[0], times[0]), es[1..], times[1..])
  }

  /** The event feed delivers events in the order they were written, each
      stamped with the time of its own write; once the sink is closed every
      write is dropped without error. */
  lemma {:induction false} EventsInWriteOrder(c: Ctx, es: seq<Event>, times: seq<int>)
    requires |es| == |times|
    ensures !c.closed ==>
              && |WriteAll(c, es, times).events| == |c.events| + |es|
              && WriteAll(c, es, times).events[..|c.events|] == c.events
              && forall i :: 0 <= i < |es| ==>
                   WriteAll(c, es, times).events[|c.events| + i] == es[i].(timeUtc := times[i])
    ensures c.closed ==> WriteAll(c, es, times) == c
    decreases |es|
  {
    if |es| > 0 {
      var c1 := WriteEvent(c, es[0], times[0]);
      EventsInWriteOrder(c1, es[1..], times[1..]);
      if !c.closed {
        var r := WriteAll(c, es, times);
        assert r == WriteAll(c1, es[1..], times[1..]);
        forall i | 0 <= i < |es|
          ensures r.events[|c.events| + i] == es[i].(timeUtc := times[i])
        {
          if i > 0 {
            assert r.events[|c1.events| + (i - 1)] == es[1..][i - 1].(timeUtc := times[1..][i - 1]);
          }
        }
        assert r.events[..|c.events|] == r.events[..|c1.events|][..|c.events|];
      }
    }
  }

  /** After `Dispose`, events and progress reports are dropped silently. */
  lemma WritesAfterDisposeDropped(c: Ctx, e: Event, now: int, p: Progress)
    ensures WriteEvent(Dispose(c), e, now) == Dispose(c)
    ensures ReportProgress(Dispose(c), p) == Dispose(c)
  {
  }

  /** `AskAsync` AS WRITTEN loses a waiter when an id is reused. Ask A under
      "x" is answered; before A's continuation runs, a concurrent Ask B asks
      under "x" again; A's `finally` then removes B's entry. B keeps waiting
      with nothing in the table referring to it, so neither an answer nor
      cancellation can ever complete it, not even `Dispose`. */
  lemma AsWrittenFinallyOrphansReusedId()
    ensures
      var req := DialogRequest("x", "t", "m", 2, "", 0);
      var g: GuidText := "00000000000000000000000000000000";
      var a := AskBegin(Initial, req, g);
      && a.Published?
      && var c1 := SetDialogResult(a.ctx, DialogResponse("x", 1, ""));
         var b := AskBegin(c1, req, g);
         && b.Published?
         && var c2 := AskEndAsWritten(b.ctx, "x", a.handle).0;
            && !Valid(c2)
            && SetDialogResult(c2, DialogResponse("x", 1, "")) == c2
            && Dispose(c2).waiters[b.handle] == Waiting
  {
    var req := DialogRequest("x", "t", "m", 2, "", 0);
    var g: GuidText := "00000000000000000000000000000000";
    assert !IsBlank("x") by {
      assert !IsWhiteSpace("x"[0]);
    }
    var a := AskBegin(Initial, req, g);
    var c1 := SetDialogResult(a.ctx, DialogResponse("x", 1, ""));
    var b := AskBegin(c1, req, g);
    var c2 := AskEndAsWritten(b.ctx, "x", a.handle).0;
    assert c2.waiters[b.handle] == Waiting;
    assert b.handle !in PendingHandles(c2);
  }

  /** With the intended `finally`, the same interleaving keeps B's entry,
      and cancellation then releases B. */
  lemma FinallyKeepsReusedId()
    ensures
      var req := DialogRequest("x", "t", "m", 2, "", 0);
      var g: GuidText := "00000000000000000000000000000000";
      var a := AskBegin(Initial, req, g);
      && a.Published?
      && var c1 := SetDialogResult(a.ctx, DialogResponse("x", 1, ""));
         var b := AskBegin(c1, req, g);
         && b.Published?
         && var c2 := AskEnd(b.ctx, "x", a.handle).0;
            && Valid(c2)
            && c2.pending["x"] == b.handle
            && Dispose(c2).waiters[b.handle] == Cancelled
  {
    var req := DialogRequest("x", "t", "m", 2, "", 0);
    var g: GuidText := "00000000000000000000000000000000";
    assert !IsBlank("x") by {
      assert !IsWhiteSpace("x"[0]);
    }
    InitialValid();
    var a := AskBegin(Initial, req, g);
    AskBeginPreservesValid(Initial, req, g);
    var c1 := SetDialogResult(a.ctx, DialogResponse("x", 1, ""));
    SetDialogResultPreservesValid(a.ctx, DialogResponse("x", 1, ""));
    var b := AskBegin(c1, req, g);
    AskBeginPreservesValid(c1, req, g);
    var c2 := AskEnd(b.ctx, "x", a.handle).0;
    AskEndLeavesNothing(b.ctx, "x", a.handle);
    assert b.handle in PendingHandles(c2);
  }
}
