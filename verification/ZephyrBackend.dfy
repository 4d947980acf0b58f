/**
 * The Zephyr backend turns the blocking join and send of the stack into work items on one worker thread. Each
 * critical section, each call into the stack and each publish is one step; API callers interleave freely.
 */
module ZephyrBackend {
  import opened Errors
  import opened Bytes

  const MAX_PAYLOAD := 242

  datatype Uplink = Uplink(port: byte, data: seq<byte>, confirmed: bool)

  datatype Settings = Settings(otaa: bool, devNonce: u16, interval: byte)

  /** What one join attempt presents to the stack. */
  datatype Attempt = Attempt(settings: Settings, devNonce: u16)

  datatype TxStatus = Confirmed | Sent | NotSent(error: int)

  datatype JoinEvent = Joined | JoinFailed(error: int)

  /** Where the worker thread is. */
  datatype Worker =
    | Resting
    | JoinEntered | Joining(attempt: Attempt) | JoinReporting(event: JoinEvent) | JoinReturning
    | SendEntered | Sending(uplink: Uplink) | SendReturned(confirmed: bool, rc: int) | SendReporting(status: TxStatus)

  /** An uplink the stack was given, and what its send returned. */
  datatype Handover = Handover(uplink: Uplink, rc: int)

  datatype Logs = Logs(accepted: seq<Uplink>, handed: seq<Handover>, done: seq<TxStatus>,
                       attempts: seq<Attempt>, joinEvents: seq<JoinEvent>)

  const NO_LOGS := Logs([], [], [], [], [])

  /** The flags and buffers of the file, the work queue, the worker, and logs of what callers and stack have seen. */
  datatype State = State(
    started: bool, joined: bool, joinPending: bool, joinStop: bool, txPending: bool,
    nonce: u16, settings: Settings, tx: Uplink,
    joinScheduled: bool, cancelling: bool, submitOwed: bool, sendQueued: bool, worker: Worker, logs: Logs)

  const BOOT := State(false, false, false, false, false, 1, Settings(true, 0, 0), Uplink(0, [], false),
                      false, false, false, false, Resting, NO_LOGS)

  datatype Step =
    | Start
    | Join(settings: Settings, maskRc: int)
    | Leave
    | Send(uplink: Uplink)
    | Submit
    | EnterJoin | CheckStop | FinishJoin(rc: int) | ReportJoin | ReturnJoin
    | EnterSend | CopyTx | HandOver(rc: int) | ClearTx | ReportTx

  // ----- Calls -----

  function JoinRc(s: State, maskRc: int): int {
    if !s.started then ERR_NOT_READY else if s.joinPending || s.txPending then ERR_BUSY else maskRc
  }

  predicate InJoinHandler(w: Worker) {
    w.JoinEntered? || w.Joining? || w.JoinReporting? || w.JoinReturning?
  }

  /** The kernel takes the work item unless a cancel of its running handler is still pending. */
  function AcceptJoin(s: State, settings: Settings): State {
    s.(settings := settings, joinPending := true, joinStop := false,
       joinScheduled := s.joinScheduled || !s.cancelling)
  }

  function AfterJoinCall(s: State, settings: Settings, maskRc: int): State {
    if JoinRc(s, maskRc) == OK then AcceptJoin(s, settings) else s
  }

  function LeaveRc(s: State): int {
    if s.joinPending then OK else ERR_NOT_SUPPORTED
  }

  /** Cancels a waiting handler; a running one is told to stop and keeps the request pending. */
  function AfterLeave(s: State): State {
    if s.joinPending then
      s.(joinStop := true, joinScheduled := false, joinPending := InJoinHandler(s.worker),
         cancelling := InJoinHandler(s.worker))
    else s
  }

  function SendRc(s: State): int {
    if !s.started then ERR_NOT_READY
    else if !s.joined then ERR_NOT_JOINED
    else if s.joinPending || s.txPending then ERR_BUSY
    else OK
  }

  function AcceptSend(s: State, u: Uplink): State {
    s.(tx := u, txPending := true, submitOwed := true, logs := s.logs.(accepted := s.logs.accepted + [u]))
  }

  function AfterSendCall(s: State, u: Uplink): State {
    if SendRc(s) == OK then AcceptSend(s, u) else s
  }

  function AfterSubmit(s: State): State {
    s.(submitOwed := false, sendQueued := true)
  }

  // ----- Worker -----

  function AfterEnterJoin(s: State): State {
    s.(joinScheduled := false, worker := JoinEntered)
  }

  function NonceFor(s: State): u16 {
    if s.settings.devNonce != 0 then s.settings.devNonce else s.nonce
  }

  function AttemptFor(s: State): Attempt {
    Attempt(s.settings, if s.settings.otaa then NonceFor(s) else 0)
  }

  function NonceAfter(s: State): u16 {
    if s.settings.otaa && s.settings.devNonce == 0 then (s.nonce + 1) % 0x1_0000 else s.nonce
  }

  /** Gives up when told to stop, else takes the settings and, for OTAA, a device nonce. */
  function AfterCheck(s: State): State {
    if s.joinStop then s.(joinPending := false, worker := JoinReturning)
    else s.(worker := Joining(AttemptFor(s)), nonce := NonceAfter(s),
            logs := s.logs.(attempts := s.logs.attempts + [AttemptFor(s)]))
  }

  /** Success or a stop ends the request, else the handler is scheduled again; a stopped failure is not reported. */
  function AfterJoin(s: State, rc: int): State {
    var again := rc != 0 && !s.joinStop;
    s.(joined := rc == 0,
       joinPending := s.joinPending && again,
       joinScheduled := if again then !s.cancelling else s.joinScheduled,
       worker := if rc == 0 then JoinReporting(Joined)
                 else if s.joinStop then JoinReturning
                 else JoinReporting(JoinFailed(rc)))
  }

  function AfterReport(s: State, event: JoinEvent): State {
    s.(worker := JoinReturning, logs := s.logs.(joinEvents := s.logs.joinEvents + [event]))
  }

  function AfterReturn(s: State): State {
    s.(worker := Resting, cancelling := false)
  }

  function StatusOf(confirmed: bool, rc: int): TxStatus {
    if rc != 0 then NotSent(rc) else if confirmed then Confirmed else Sent
  }

  function AfterEnterSend(s: State): State {
    s.(sendQueued := false, worker := SendEntered)
  }

  function AfterCopy(s: State): State {
    s.(worker := Sending(s.tx))
  }

  function AfterHandOver(s: State, u: Uplink, rc: int): State {
    s.(worker := SendReturned(u.confirmed, rc), logs := s.logs.(handed := s.logs.handed + [Handover(u, rc)]))
  }

  function AfterClear(s: State, status: TxStatus): State {
    s.(txPending := false, worker := SendReporting(status))
  }

  function AfterDone(s: State, status: TxStatus): State {
    s.(worker := Resting, logs := s.logs.(done := s.logs.done + [status]))
  }

  predicate Enabled(s: State, step: Step) {
    match step
    case Start => !s.started
    case Join(_, _) => true
    case Leave => true
    case Send(u) => |u.data| <= MAX_PAYLOAD
    case Submit => s.submitOwed
    case EnterJoin => s.worker.Resting? && s.joinScheduled
    case CheckStop => s.worker.JoinEntered?
    case FinishJoin(_) => s.worker.Joining?
    case ReportJoin => s.worker.JoinReporting?
    case ReturnJoin => s.worker.JoinReturning?
    case EnterSend => s.worker.Resting? && s.sendQueued
    case CopyTx => s.worker.SendEntered?
    case HandOver(_) => s.worker.Sending?
    case ClearTx => s.worker.SendReturned?
    case ReportTx => s.worker.SendReporting?
  }

  function Next(s: State, step: Step): State
    requires Enabled(s, step)
  {
    match step
    case Start => s.(started := true, joined := false)
    case Join(settings, maskRc) => AfterJoinCall(s, settings, maskRc)
    case Leave => AfterLeave(s)
    case Send(u) => AfterSendCall(s, u)
    case Submit => AfterSubmit(s)
    case EnterJoin => AfterEnterJoin(s)
    case CheckStop => AfterCheck(s)
    case FinishJoin(rc) => AfterJoin(s, rc)
    case ReportJoin => AfterReport(s, s.worker.event)
    case ReturnJoin => AfterReturn(s)
    case EnterSend => AfterEnterSend(s)
    case CopyTx => AfterCopy(s)
    case HandOver(rc) => AfterHandOver(s, s.worker.uplink, rc)
    case ClearTx => AfterClear(s, StatusOf(s.worker.confirmed, s.worker.rc))
    case ReportTx => AfterDone(s, s.worker.status)
  }

  predicate Runs(s: State, steps: seq<Step>)
    decreases |steps|
  {
    steps == [] || (Enabled(s, steps[0]) && Runs(Next(s, steps[0]), steps[1..]))
  }

  function After(s: State, steps: seq<Step>): State
    requires Runs(s, steps)
    decreases |steps|
  {
    if steps == [] then s else After(Next(s, steps[0]), steps[1..])
  }

  // ----- Uplinks -----

  function Uplinks(handed: seq<Handover>): seq<Uplink> {
    seq(|handed|, i requires 0 <= i < |handed| => handed[i].uplink)
  }

  function Statuses(handed: seq<Handover>): seq<TxStatus> {
    seq(|handed|, i requires 0 <= i < |handed| => StatusOf(handed[i].uplink.confirmed, handed[i].rc))
  }

  /** The accepted uplink that the stack has not been given yet is still in the buffer. */
  function Waiting(s: State): seq<Uplink> {
    if s.txPending && !s.worker.SendReturned? then [s.tx] else []
  }

  /** Statuses the worker still has to publish. */
  function Unreported(w: Worker): seq<TxStatus> {
    match w
    case SendReturned(confirmed, rc) => [StatusOf(confirmed, rc)]
    case SendReporting(status) => [status]
    case _ => []
  }

  predicate InSendHandler(w: Worker) {
    w.SendEntered? || w.Sending? || w.SendReturned?
  }

  /** One owner at a time: the accepting caller, the work queue, or the send handler. */
  ghost predicate TxSound(s: State) {
    && (s.txPending <==> s.submitOwed || s.sendQueued || InSendHandler(s.worker))
    && !(s.submitOwed && s.sendQueued) && !(InSendHandler(s.worker) && (s.submitOwed || s.sendQueued))
    && (s.worker.Sending? ==> s.worker.uplink == s.tx)
    && s.logs.accepted == Uplinks(s.logs.handed) + Waiting(s)
    && Statuses(s.logs.handed) == s.logs.done + Unreported(s.worker)
  }

  lemma ExtendLogs(handed: seq<Handover>, h: Handover)
    ensures Uplinks(handed + [h]) == Uplinks(handed) + [h.uplink]
    ensures Statuses(handed + [h]) == Statuses(handed) + [StatusOf(h.uplink.confirmed, h.rc)]
  {
  }

  lemma SendStepKeepsTx(s: State, step: Step)
    requires TxSound(s) && Enabled(s, step)
    requires step.Send? || step.Submit? || step.EnterSend? || step.CopyTx?
    ensures TxSound(Next(s, step))
  {
    if step.Send? && SendRc(s) == OK {
      assert Uplinks(s.logs.handed) + [] == Uplinks(s.logs.handed);
    }
  }

  lemma StackStepKeepsTx(s: State, step: Step)
    requires TxSound(s) && Enabled(s, step)
    requires step.HandOver? || step.ClearTx? || step.ReportTx?
    ensures TxSound(Next(s, step))
  {
    if step.HandOver? {
      ExtendLogs(s.logs.handed, Handover(s.worker.uplink, step.rc));
      assert s.logs.done + [] == s.logs.done && Uplinks(s.logs.handed) + [s.tx] + [] == Uplinks(s.logs.handed) + [s.tx];
    } else if step.ReportTx? {
      assert s.logs.done + [s.worker.status] == (s.logs.done + [s.worker.status]) + [];
    }
  }

  lemma CheckKeepsTx(s: State)
    requires TxSound(s) && s.worker.JoinEntered?
    ensures TxSound(AfterCheck(s))
  {
  }

  lemma FinishKeepsTx(s: State, rc: int)
    requires TxSound(s) && s.worker.Joining?
    ensures TxSound(AfterJoin(s, rc))
  {
  }

  lemma JoinCallKeepsTx(s: State, step: Step)
    requires TxSound(s) && Enabled(s, step)
    requires step.Start? || step.Join? || step.Leave? || step.EnterJoin? || step.ReportJoin? || step.ReturnJoin?
    ensures TxSound(Next(s, step))
  {
  }

  lemma StepKeepsTx(s: State, step: Step)
    requires TxSound(s) && Enabled(s, step)
    ensures TxSound(Next(s, step))
  {
    if step.Send? || step.Submit? || step.EnterSend? || step.CopyTx? {
      SendStepKeepsTx(s, step);
    } else if step.HandOver? || step.ClearTx? || step.ReportTx? {
      StackStepKeepsTx(s, step);
    } else if step.CheckStop? {
      CheckKeepsTx(s);
    } else if step.FinishJoin? {
      FinishKeepsTx(s, step.rc);
    } else {
      JoinCallKeepsTx(s, step);
    }
  }

  lemma {:induction false} RunKeepsTx(s: State, steps: seq<Step>)
    requires TxSound(s) && Runs(s, steps)
    ensures TxSound(After(s, steps))
    decreases |steps|
  {
    if steps != [] {
      StepKeepsTx(s, steps[0]);
      RunKeepsTx(Next(s, steps[0]), steps[1..]);
    }
  }

  /**
   * Under every interleaving each accepted uplink is handed to the stack once, in order and unaltered, and gets
   * one status; the difference of accepted and completed is the pending flag plus a status being published.
   */
  lemma UplinksExactlyOnce(steps: seq<Step>)
    requires Runs(BOOT, steps)
    ensures var s := After(BOOT, steps);
            && Uplinks(s.logs.handed) <= s.logs.accepted && s.logs.done <= Statuses(s.logs.handed)
            && |s.logs.accepted| - |s.logs.done|
               == (if s.txPending then 1 else 0) + (if s.worker.SendReporting? then 1 else 0)
            && (!s.txPending && s.worker.Resting? ==>
                  Uplinks(s.logs.handed) == s.logs.accepted && s.logs.done == Statuses(s.logs.handed))
  {
    RunKeepsTx(BOOT, steps);
    var s := After(BOOT, steps);
    assert |Uplinks(s.logs.handed)| == |Statuses(s.logs.handed)|;
  }

  // ----- Join requests -----

  /** Scheduled or undecided, a handler keeps the request pending; one being cancelled is told to stop. */
  ghost predicate JoinSound(s: State) {
    && (s.joinScheduled || s.worker.JoinEntered? || s.worker.Joining? ==> s.joinPending)
    && (s.worker.JoinEntered? || s.worker.Joining? ==> !s.joinScheduled)
    && (s.cancelling ==> InJoinHandler(s.worker) && (s.worker.JoinEntered? || s.worker.Joining? ==> s.joinStop))
  }

  lemma CheckKeepsJoin(s: State)
    requires JoinSound(s) && s.worker.JoinEntered?
    ensures JoinSound(AfterCheck(s))
  {
  }

  lemma FinishKeepsJoin(s: State, rc: int)
    requires JoinSound(s) && s.worker.Joining?
    ensures JoinSound(AfterJoin(s, rc))
  {
  }

  lemma CallsKeepJoin(s: State, settings: Settings, maskRc: int)
    requires JoinSound(s)
    ensures JoinSound(AfterJoinCall(s, settings, maskRc)) && JoinSound(AfterLeave(s))
  {
  }

  lemma TurnKeepsJoin(s: State)
    requires JoinSound(s)
    ensures s.worker.Resting? && s.joinScheduled ==> JoinSound(AfterEnterJoin(s))
    ensures s.worker.JoinReporting? ==> JoinSound(AfterReport(s, s.worker.event))
    ensures s.worker.JoinReturning? ==> JoinSound(AfterReturn(s))
  {
  }

  /** Every other step leaves the join request alone. */
  predicate OfJoin(step: Step) {
    || step.Join? || step.Leave? || step.EnterJoin? || step.CheckStop? || step.FinishJoin?
    || step.ReportJoin? || step.ReturnJoin?
  }

  lemma OtherStepKeepsJoin(s: State, step: Step)
    requires JoinSound(s) && Enabled(s, step) && !OfJoin(step)
    ensures JoinSound(Next(s, step))
  {
  }

  lemma StepKeepsJoin(s: State, step: Step)
    requires JoinSound(s) && Enabled(s, step)
    ensures JoinSound(Next(s, step))
  {
    match step
    case Join(settings, maskRc) => CallsKeepJoin(s, settings, maskRc);
    case Leave => CallsKeepJoin(s, s.settings, OK);
    case CheckStop => CheckKeepsJoin(s);
    case FinishJoin(rc) => FinishKeepsJoin(s, rc);
    case EnterJoin => TurnKeepsJoin(s);
    case ReportJoin => TurnKeepsJoin(s);
    case ReturnJoin => TurnKeepsJoin(s);
    case _ => OtherStepKeepsJoin(s, step);
  }

  lemma {:induction false} RunKeepsJoin(s: State, steps: seq<Step>)
    requires JoinSound(s) && Runs(s, steps)
    ensures JoinSound(After(s, steps))
    decreases |steps|
  {
    if steps != [] {
      StepKeepsJoin(s, steps[0]);
      RunKeepsJoin(Next(s, steps[0]), steps[1..]);
    }
  }

  /** Every join call in the run is refused. */
  predicate NoJoinAccepted(s: State, steps: seq<Step>)
    requires Runs(s, steps)
    decreases |steps|
  {
    steps != [] ==>
      && (steps[0].Join? ==> JoinRc(s, steps[0].maskRc) != OK)
      && NoJoinAccepted(Next(s, steps[0]), steps[1..])
  }

  /** What an attempt past its check may still report once it is told to stop. */
  predicate MayReport(w: Worker, e: JoinEvent) {
    (w.Joining? && e == Joined) || (w.JoinReporting? && e == w.event)
  }

  predicate OneMore(before: seq<JoinEvent>, after: seq<JoinEvent>) {
    |after| == |before| + 1 && after[..|before|] == before
  }

  /** With the stop flag up, no attempt starts, and only the one in flight can still report. */
  ghost predicate StoppedSince(first: State, s: State) {
    && s.joinStop && s.logs.attempts == first.logs.attempts && s.nonce == first.nonce
    && (s.logs.joinEvents == first.logs.joinEvents
        || (OneMore(first.logs.joinEvents, s.logs.joinEvents)
            && MayReport(first.worker, s.logs.joinEvents[|first.logs.joinEvents|])
            && !s.worker.Joining? && !s.worker.JoinReporting?))
    && (s.worker.Joining? ==> first.worker.Joining?)
    && (s.worker.JoinReporting? ==> MayReport(first.worker, s.worker.event))
  }

  lemma CheckKeepsStopped(first: State, s: State)
    requires StoppedSince(first, s) && s.worker.JoinEntered?
    ensures StoppedSince(first, AfterCheck(s))
  {
  }

  lemma FinishKeepsStopped(first: State, s: State, rc: int)
    requires StoppedSince(first, s) && s.worker.Joining?
    ensures StoppedSince(first, AfterJoin(s, rc))
  {
  }

  lemma ReportKeepsStopped(first: State, s: State)
    requires StoppedSince(first, s) && s.worker.JoinReporting?
    ensures StoppedSince(first, Next(s, ReportJoin))
  {
  }

  lemma StepKeepsStopped(first: State, s: State, step: Step)
    requires StoppedSince(first, s) && Enabled(s, step) && (step.Join? ==> JoinRc(s, step.maskRc) != OK)
    ensures StoppedSince(first, Next(s, step))
  {
    if step.CheckStop? {
      CheckKeepsStopped(first, s);
    } else if step.FinishJoin? {
      FinishKeepsStopped(first, s, step.rc);
    } else if step.ReportJoin? {
      ReportKeepsStopped(first, s);
    }
  }

  lemma {:induction false} RunKeepsStopped(first: State, s: State, steps: seq<Step>)
    requires StoppedSince(first, s) && Runs(s, steps) && NoJoinAccepted(s, steps)
    ensures StoppedSince(first, After(s, steps))
    decreases |steps|
  {
    if steps != [] {
      StepKeepsStopped(first, s, steps[0]);
      RunKeepsStopped(first, Next(s, steps[0]), steps[1..]);
    }
  }

  /**
   * Once a leave has returned success, no attempt starts and no device nonce is used until a join is accepted. An
   * attempt that was in the stack may still report that it joined, one that had decided reports what it decided,
   * and nothing else is reported.
   */
  lemma LeaveStopsAttempts(s: State, steps: seq<Step>)
    requires LeaveRc(s) == OK && Runs(AfterLeave(s), steps) && NoJoinAccepted(AfterLeave(s), steps)
    ensures var e := After(AfterLeave(s), steps);
            && e.logs.attempts == s.logs.attempts && e.nonce == s.nonce
            && (e.logs.joinEvents == s.logs.joinEvents
                || (s.worker.Joining? && e.logs.joinEvents == s.logs.joinEvents + [Joined])
                || (s.worker.JoinReporting? && e.logs.joinEvents == s.logs.joinEvents + [s.worker.event]))
  {
    RunKeepsStopped(AfterLeave(s), AfterLeave(s), steps);
    var e := After(AfterLeave(s), steps);
    if e.logs.joinEvents != s.logs.joinEvents {
      assert e.logs.joinEvents == s.logs.joinEvents + [e.logs.joinEvents[|s.logs.joinEvents|]];
    }
  }

  // ----- Where a pending request can be stranded -----

  /** Pending, with no handler left that could clear it. */
  predicate Stranded(s: State) {
    s.joinPending && !s.joinScheduled && !s.worker.JoinEntered? && !s.worker.Joining?
  }

  /** The join handler has decided and not yet returned to the work queue. */
  predicate Leaving(w: Worker) {
    w.JoinReporting? || w.JoinReturning?
  }

  /**
   * Exactly two steps strand a request, both against a handler between its decision and its return: a leave that
   * cancels its next attempt, and a join accepted after a leave has hit this very handler.
   */
  lemma StrandedStepIff(s: State, step: Step)
    requires JoinSound(s) && Enabled(s, step) && !Stranded(s)
    ensures Stranded(Next(s, step))
       <==> Leaving(s.worker)
            && ((step.Leave? && s.joinPending) || (step.Join? && JoinRc(s, step.maskRc) == OK && s.cancelling))
  {
    if step.CheckStop? {
      CheckStrandsNothing(s);
    } else if step.FinishJoin? {
      FinishStrandsNothing(s, step.rc);
    }
  }

  lemma CheckStrandsNothing(s: State)
    requires s.worker.JoinEntered?
    ensures !Stranded(AfterCheck(s))
  {
  }

  lemma FinishStrandsNothing(s: State, rc: int)
    requires JoinSound(s) && s.worker.Joining?
    ensures !Stranded(AfterJoin(s, rc))
  {
  }

  /** A stranded request refuses every join and every uplink, and only another leave can release it. */
  lemma StrandedNeedsLeave(s: State, step: Step)
    requires Stranded(s) && Enabled(s, step) && !step.Leave?
    ensures Stranded(Next(s, step)) && Next(s, step).logs.accepted == s.logs.accepted
    ensures Next(s, step).logs.attempts == s.logs.attempts
    ensures forall maskRc :: JoinRc(s, maskRc) != OK
    ensures !InJoinHandler(s.worker) ==> !AfterLeave(s).joinPending
  {
  }

  lemma {:induction false} RunsAppend(s: State, a: seq<Step>, b: seq<Step>)
    requires Runs(s, a) && Runs(After(s, a), b)
    ensures Runs(s, a + b) && After(s, a + b) == After(After(s, a), b)
    decreases |a|
  {
    if a == [] {
      assert a + b == b;
    } else {
      assert (a + b)[0] == a[0] && (a + b)[1..] == a[1..] + b;
      RunsAppend(Next(s, a[0]), a[1..], b);
    }
  }

  lemma TwoSteps(s: State, a: Step, b: Step)
    requires Enabled(s, a) && Enabled(Next(s, a), b)
    ensures Runs(s, [a, b]) && After(s, [a, b]) == Next(Next(s, a), b)
  {
    assert [a, b][1..] == [b] && [b][1..] == [];
    assert Runs(Next(Next(s, a), b), []);
    assert Runs(Next(s, a), [b]) && After(Next(s, a), [b]) == Next(Next(s, a), b);
  }

  lemma FourSteps(s: State, a: Step, b: Step, c: Step, d: Step)
    requires Enabled(s, a) && Enabled(Next(s, a), b)
    requires var t := Next(Next(s, a), b); Enabled(t, c) && Enabled(Next(t, c), d)
    ensures Runs(s, [a, b, c, d]) && After(s, [a, b, c, d]) == Next(Next(Next(Next(s, a), b), c), d)
  {
    TwoSteps(s, a, b);
    TwoSteps(Next(Next(s, a), b), c, d);
    RunsAppend(s, [a, b], [c, d]);
    assert [a, b] + [c, d] == [a, b, c, d];
  }

  /** An attempt is in the stack, nobody has asked to stop it. */
  predicate Attempting(s: State) {
    s.started && s.worker.Joining? && s.joinPending && !s.joinStop && !s.joinScheduled && !s.txPending
  }

  lemma AttemptReachable() returns (steps: seq<Step>)
    ensures Runs(BOOT, steps) && Attempting(After(BOOT, steps)) && |After(BOOT, steps).logs.attempts| == 1
  {
    var request := Join(Settings(true, 0, 8), OK);
    FourSteps(BOOT, Start, request, EnterJoin, CheckStop);
    steps := [Start, request, EnterJoin, CheckStop];
  }

  /** A failed attempt schedules the next, and a leave arrives before its handler has returned. */
  lemma LeaveCanStrand() returns (steps: seq<Step>)
    ensures Runs(BOOT, steps) && Stranded(After(BOOT, steps)) && After(BOOT, steps).worker.Resting?
  {
    var start := AttemptReachable();
    var s := After(BOOT, start);
    FourSteps(s, FinishJoin(-1), Leave, ReportJoin, ReturnJoin);
    steps := start + [FinishJoin(-1), Leave, ReportJoin, ReturnJoin];
    RunsAppend(BOOT, start, [FinishJoin(-1), Leave, ReportJoin, ReturnJoin]);
  }

  /** A leave stops the attempt under way; a join accepted before its handler has returned is never attempted. */
  lemma JoinCanStrand() returns (steps: seq<Step>)
    ensures Runs(BOOT, steps) && Stranded(After(BOOT, steps)) && After(BOOT, steps).worker.Resting?
    ensures |After(BOOT, steps).logs.attempts| == 1
  {
    var start := AttemptReachable();
    var s, request := After(BOOT, start), Join(Settings(true, 0, 8), OK);
    FourSteps(s, Leave, FinishJoin(-1), request, ReturnJoin);
    steps := start + [Leave, FinishJoin(-1), request, ReturnJoin];
    RunsAppend(BOOT, start, [Leave, FinishJoin(-1), request, ReturnJoin]);
  }
}
