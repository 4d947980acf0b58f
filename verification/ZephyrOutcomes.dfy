/** What callers, the network and subscribers see of the Zephyr backend, over whole runs from boot. */
module ZephyrOutcomes {
  import opened Errors
  import opened Bytes
  import opened ZephyrBackend

  lemma {:induction false} RunsSplit(s: State, steps: seq<Step>, step: Step)
    requires Runs(s, steps + [step])
    ensures Runs(s, steps) && Enabled(After(s, steps), step)
    ensures After(s, steps + [step]) == Next(After(s, steps), step)
    decreases |steps|
  {
    if steps == [] {
      assert [] + [step] == [step] && [step][1..] == [];
      assert After(Next(s, step), []) == Next(s, step);
    } else {
      assert (steps + [step])[0] == steps[0] && (steps + [step])[1..] == steps[1..] + [step];
      RunsSplit(Next(s, steps[0]), steps[1..], step);
    }
  }

  lemma LastSplits(s: State, steps: seq<Step>)
    requires steps != [] && Runs(s, steps)
    ensures var init, last := steps[..|steps| - 1], steps[|steps| - 1];
            Runs(s, init) && Enabled(After(s, init), last) && After(s, steps) == Next(After(s, init), last)
  {
    assert steps == steps[..|steps| - 1] + [steps[|steps| - 1]];
    RunsSplit(s, steps[..|steps| - 1], steps[|steps| - 1]);
  }

  // ----- Device nonces -----

  /** An OTAA attempt for which the application fixed no nonce. */
  predicate OwnNonce(a: Attempt) {
    a.settings.otaa && a.settings.devNonce == 0
  }

  function CountOwn(attempts: seq<Attempt>): nat {
    if attempts == [] then 0
    else CountOwn(attempts[..|attempts| - 1]) + if OwnNonce(attempts[|attempts| - 1]) then 1 else 0
  }

  /** The nonce of attempt `i`: fixed, absent, or one more than the number of own nonces before it. */
  predicate NonceOf(attempts: seq<Attempt>, i: nat)
    requires i < |attempts|
  {
    var a := attempts[i];
    a.devNonce == if !a.settings.otaa then 0
                  else if a.settings.devNonce != 0 then a.settings.devNonce
                  else (CountOwn(attempts[..i]) + 1) % 0x1_0000
  }

  ghost predicate Counted(nonce: u16, log: seq<Attempt>) {
    nonce == (CountOwn(log) + 1) % 0x1_0000 && forall i | 0 <= i < |log| :: NonceOf(log, i)
  }

  ghost predicate NoncesCounted(s: State) {
    Counted(s.nonce, s.logs.attempts)
  }

  lemma OneMoreAttempt(attempts: seq<Attempt>, a: Attempt, i: nat)
    requires i <= |attempts|
    ensures (attempts + [a])[..i] == attempts[..i]
    ensures CountOwn(attempts + [a]) == CountOwn(attempts) + if OwnNonce(a) then 1 else 0
  {
    assert (attempts + [a])[..|attempts|] == attempts;
  }

  lemma WrapOnce(n: nat)
    ensures ((n + 1) % 0x1_0000 + 1) % 0x1_0000 == (n + 2) % 0x1_0000
  {
  }

  lemma LogCounts(nonce: u16, log: seq<Attempt>, a: Attempt)
    requires Counted(nonce, log)
    requires a.devNonce == if !a.settings.otaa then 0
                           else if a.settings.devNonce != 0 then a.settings.devNonce else nonce
    ensures Counted(if OwnNonce(a) then (nonce + 1) % 0x1_0000 else nonce, log + [a])
  {
    NextCount(nonce, log, a);
    forall i | 0 <= i < |log| + 1
      ensures NonceOf(log + [a], i)
    {
      LaterNonce(nonce, log, a, i);
    }
  }

  lemma NextCount(nonce: u16, log: seq<Attempt>, a: Attempt)
    requires nonce == (CountOwn(log) + 1) % 0x1_0000
    ensures (CountOwn(log + [a]) + 1) % 0x1_0000 == if OwnNonce(a) then (nonce + 1) % 0x1_0000 else nonce
  {
    OneMoreAttempt(log, a, |log|);
    WrapOnce(CountOwn(log));
  }

  lemma LaterNonce(nonce: u16, log: seq<Attempt>, a: Attempt, i: nat)
    requires Counted(nonce, log) && i <= |log|
    requires a.devNonce == if !a.settings.otaa then 0
                           else if a.settings.devNonce != 0 then a.settings.devNonce else nonce
    ensures NonceOf(log + [a], i)
  {
    OneMoreAttempt(log, a, i);
    if i < |log| {
      assert NonceOf(log, i);
    } else {
      assert log[..i] == log;
    }
  }

  lemma CheckAttempts(s: State)
    requires !s.joinStop
    ensures var t := AfterCheck(s);
            && t.worker.Joining?
            && var a := t.worker.attempt;
               && t.logs.attempts == s.logs.attempts + [a]
               && t.nonce == (if OwnNonce(a) then (s.nonce + 1) % 0x1_0000 else s.nonce)
               && a.devNonce == if !a.settings.otaa then 0
                                else if a.settings.devNonce != 0 then a.settings.devNonce else s.nonce
  {
  }

  lemma CheckCounts(s: State)
    requires NoncesCounted(s) && s.worker.JoinEntered?
    ensures NoncesCounted(AfterCheck(s))
  {
    if s.joinStop {
      StoppedCheck(s);
    } else {
      CheckAttempts(s);
      LogCounts(s.nonce, s.logs.attempts, AfterCheck(s).worker.attempt);
    }
  }

  lemma StoppedCheck(s: State)
    requires s.joinStop
    ensures AfterCheck(s).nonce == s.nonce && AfterCheck(s).logs == s.logs
  {
  }

  lemma StepCounts(s: State, step: Step)
    requires NoncesCounted(s) && Enabled(s, step)
    ensures NoncesCounted(Next(s, step))
  {
    if step.CheckStop? {
      CheckCounts(s);
    } else {
      AttemptsMoveAtCheck(s, step);
    }
  }

  lemma AttemptsMoveAtCheck(s: State, step: Step)
    requires Enabled(s, step) && !step.CheckStop?
    ensures Next(s, step).logs.attempts == s.logs.attempts && Next(s, step).nonce == s.nonce
  {
    match step
    case FinishJoin(rc) => FinishMoves(s, rc);
    case Join(settings, maskRc) => JoinMoves(s, settings, maskRc);
    case Leave => LeaveMoves(s);
    case Send(u) => SendMoves(s, u);
    case Start =>
    case _ => OtherMoves(s, step);
  }

  // ----- What each step leaves alone -----

  predicate SameLink(s: State, t: State) {
    && t.started == s.started && t.joined == s.joined && t.nonce == s.nonce && t.logs.attempts == s.logs.attempts
  }

  lemma FinishMoves(s: State, rc: int)
    ensures var t := AfterJoin(s, rc);
            && t.logs == s.logs && t.nonce == s.nonce && t.joinStop == s.joinStop && t.settings == s.settings
            && t.started == s.started && t.joined == (rc == 0) && t.txPending == s.txPending
            && (t.joinPending ==> s.joinPending)
  {
  }

  lemma CheckMoves(s: State)
    ensures var t := AfterCheck(s);
            && t.joinStop == s.joinStop && t.settings == s.settings && t.joined == s.joined && t.started == s.started
            && t.txPending == s.txPending && (t.joinPending ==> s.joinPending)
  {
  }

  lemma JoinMoves(s: State, settings: Settings, maskRc: int)
    ensures var t := AfterJoinCall(s, settings, maskRc);
            && SameLink(s, t) && t.txPending == s.txPending && (!s.joinStop ==> !t.joinStop)
            && (t.joinPending && !s.joinPending ==> !s.txPending)
            && t.settings == if maskRc == OK && s.started && !s.joinPending && !s.txPending then settings
                             else s.settings
  {
  }

  lemma LeaveMoves(s: State)
    ensures var t := AfterLeave(s);
            && SameLink(s, t) && t.settings == s.settings && t.txPending == s.txPending
            && (t.joinPending ==> s.joinPending)
  {
  }

  lemma SendMoves(s: State, u: Uplink)
    ensures var t := AfterSendCall(s, u);
            && SameLink(s, t) && t.settings == s.settings && t.joinStop == s.joinStop && t.joinPending == s.joinPending
            && (t.txPending && !s.txPending ==> !s.joinPending)
  {
  }

  /** The steps of the worker and of a submission that decide nothing. */
  predicate Other(step: Step) {
    || step.Submit? || step.EnterJoin? || step.ReportJoin? || step.ReturnJoin? || step.EnterSend? || step.CopyTx?
    || step.HandOver? || step.ClearTx? || step.ReportTx?
  }

  lemma OtherMoves(s: State, step: Step)
    requires Enabled(s, step) && Other(step)
    ensures var t := Next(s, step);
            && SameLink(s, t) && t.settings == s.settings && t.joinStop == s.joinStop
            && t.joinPending == s.joinPending && (t.txPending ==> s.txPending)
  {
  }

  lemma {:induction false} RunCounts(s: State, steps: seq<Step>)
    requires NoncesCounted(s) && Runs(s, steps)
    ensures NoncesCounted(After(s, steps))
    decreases |steps|
  {
    if steps != [] {
      StepCounts(s, steps[0]);
      RunCounts(Next(s, steps[0]), steps[1..]);
    }
  }

  /**
   * Over every run from boot the k-th OTAA attempt without a fixed nonce (from k = 0) presents k + 1 on 16 bits; an
   * attempt with a fixed nonce presents that one and moves no other, and an ABP attempt presents none.
   */
  lemma NoncesAdvance(steps: seq<Step>)
    requires Runs(BOOT, steps)
    ensures var log := After(BOOT, steps).logs.attempts;
            forall i | 0 <= i < |log| ::
              log[i].devNonce == if !log[i].settings.otaa then 0
                                 else if log[i].settings.devNonce != 0 then log[i].settings.devNonce
                                 else (CountOwn(log[..i]) + 1) % 0x1_0000
  {
    RunCounts(BOOT, steps);
    var log := After(BOOT, steps).logs.attempts;
    forall i | 0 <= i < |log|
      ensures log[i].devNonce == if !log[i].settings.otaa then 0
                                 else if log[i].settings.devNonce != 0 then log[i].settings.devNonce
                                 else (CountOwn(log[..i]) + 1) % 0x1_0000
    {
      assert NonceOf(log, i);
    }
  }

  lemma {:induction false} CountGrows(attempts: seq<Attempt>, i: nat, j: nat)
    requires i < j <= |attempts| && OwnNonce(attempts[i])
    ensures CountOwn(attempts[..i]) < CountOwn(attempts[..j])
    decreases j
  {
    assert attempts[..j][..j - 1] == attempts[..j - 1];
    if i < j - 1 {
      CountGrows(attempts, i, j - 1);
    }
  }

  /** No nonce is presented twice within 16 bits of own nonces, so a network server sees no replay. */
  lemma NoncesDiffer(steps: seq<Step>, i: nat, j: nat)
    requires Runs(BOOT, steps) && i < j < |After(BOOT, steps).logs.attempts|
    requires var log := After(BOOT, steps).logs.attempts;
             && OwnNonce(log[i]) && OwnNonce(log[j])
             && CountOwn(log[..j]) - CountOwn(log[..i]) < 0x1_0000
    ensures After(BOOT, steps).logs.attempts[i].devNonce != After(BOOT, steps).logs.attempts[j].devNonce
  {
    NoncesAdvance(steps);
    CountGrows(After(BOOT, steps).logs.attempts, i, j);
  }

  // ----- What an attempt presents, and when one is made -----

  /** The settings of the last join that was accepted. */
  function LastSettings(s: State, steps: seq<Step>, none: Settings): Settings
    requires Runs(s, steps)
    decreases |steps|
  {
    if steps == [] then none
    else
      var step := steps[0];
      var accepted := step.Join? && step.maskRc == OK && s.started && !s.joinPending && !s.txPending;
      LastSettings(Next(s, step), steps[1..], if accepted then step.settings else none)
  }

  lemma StepSettings(s: State, step: Step)
    requires Enabled(s, step)
    ensures Next(s, step).settings
         == if step.Join? && step.maskRc == OK && s.started && !s.joinPending && !s.txPending then step.settings
            else s.settings
  {
    match step
    case FinishJoin(rc) => FinishMoves(s, rc);
    case CheckStop => CheckMoves(s);
    case Join(settings, maskRc) => JoinMoves(s, settings, maskRc);
    case Leave => LeaveMoves(s);
    case Send(u) => SendMoves(s, u);
    case Start =>
    case _ => OtherMoves(s, step);
  }

  lemma {:induction false} SettingsAreLast(s: State, steps: seq<Step>)
    requires Runs(s, steps)
    ensures After(s, steps).settings == LastSettings(s, steps, s.settings)
    decreases |steps|
  {
    if steps != [] {
      StepSettings(s, steps[0]);
      SettingsAreLast(Next(s, steps[0]), steps[1..]);
    }
  }

  predicate NoLeave(steps: seq<Step>) {
    forall step | step in steps :: !step.Leave?
  }

  lemma StepKeepsGoing(s: State, step: Step)
    requires !s.joinStop && Enabled(s, step) && !step.Leave?
    ensures !Next(s, step).joinStop
  {
    match step
    case FinishJoin(rc) => FinishMoves(s, rc);
    case CheckStop => CheckMoves(s);
    case Join(settings, maskRc) => JoinMoves(s, settings, maskRc);
    case Send(u) => SendMoves(s, u);
    case Start =>
    case _ => OtherMoves(s, step);
  }

  lemma {:induction false} RunKeepsGoing(s: State, steps: seq<Step>)
    requires !s.joinStop && Runs(s, steps) && NoLeave(steps)
    ensures !After(s, steps).joinStop
    decreases |steps|
  {
    if steps != [] {
      assert steps[0] in steps;
      StepKeepsGoing(s, steps[0]);
      RunKeepsGoing(Next(s, steps[0]), steps[1..]);
    }
  }

  /**
   * From an accepted join until a leave, every turn of the join handler makes one attempt, with the settings of the
   * last accepted join.
   */
  lemma AcceptedJoinIsAttempted(s: State, join: Step, steps: seq<Step>)
    requires join.Join? && join.maskRc == OK && s.started && !s.joinPending && !s.txPending
    requires Runs(Next(s, join), steps + [CheckStop]) && NoLeave(steps)
    ensures Runs(Next(s, join), steps)
    ensures var log := After(Next(s, join), steps).logs.attempts;
            var after := After(Next(s, join), steps + [CheckStop]).logs.attempts;
            && |after| == |log| + 1 && after[..|log|] == log
            && after[|log|].settings == LastSettings(Next(s, join), steps, join.settings)
  {
    var t := Next(s, join);
    RunsSplit(t, steps, CheckStop);
    RunKeepsGoing(t, steps);
    SettingsAreLast(t, steps);
  }

  // ----- Who may join and send -----

  /** At most one of join and uplink is under way. */
  ghost predicate OneAtATime(s: State) {
    !(s.joinPending && s.txPending) && JoinSound(s)
  }

  lemma StepKeepsOne(s: State, step: Step)
    requires OneAtATime(s) && Enabled(s, step)
    ensures OneAtATime(Next(s, step))
  {
    StepKeepsJoin(s, step);
    PendingMoves(s, step);
  }

  lemma PendingMoves(s: State, step: Step)
    requires Enabled(s, step)
    ensures Next(s, step).joinPending && !s.joinPending ==> step.Join? && !s.txPending && !Next(s, step).txPending
    ensures Next(s, step).txPending && !s.txPending ==> step.Send? && !s.joinPending && !Next(s, step).joinPending
  {
    match step
    case FinishJoin(rc) => FinishMoves(s, rc);
    case CheckStop => CheckMoves(s);
    case Join(settings, maskRc) => JoinMoves(s, settings, maskRc);
    case Leave => LeaveMoves(s);
    case Send(u) => SendMoves(s, u);
    case Start =>
    case _ => OtherMoves(s, step);
  }

  lemma {:induction false} RunKeepsOne(s: State, steps: seq<Step>)
    requires OneAtATime(s) && Runs(s, steps)
    ensures OneAtATime(After(s, steps))
    decreases |steps|
  {
    if steps != [] {
      StepKeepsOne(s, steps[0]);
      RunKeepsOne(Next(s, steps[0]), steps[1..]);
    }
  }

  /** The result of the last attempt since the start. */
  function LastAttemptJoined(steps: seq<Step>): bool {
    if steps == [] then false
    else
      match steps[|steps| - 1]
      case FinishJoin(rc) => rc == 0
      case Start => false
      case _ => LastAttemptJoined(steps[..|steps| - 1])
  }

  lemma StepJoined(s: State, step: Step)
    requires Enabled(s, step)
    ensures Next(s, step).joined == if step.FinishJoin? then step.rc == 0 else s.joined && !step.Start?
    ensures Next(s, step).started == (s.started || step.Start?)
  {
    match step
    case FinishJoin(rc) => FinishMoves(s, rc);
    case CheckStop => CheckMoves(s);
    case Join(settings, maskRc) => JoinMoves(s, settings, maskRc);
    case Leave => LeaveMoves(s);
    case Send(u) => SendMoves(s, u);
    case Start =>
    case _ => OtherMoves(s, step);
  }

  lemma {:induction false} JoinedIsLast(steps: seq<Step>)
    requires Runs(BOOT, steps)
    ensures After(BOOT, steps).joined == LastAttemptJoined(steps)
    ensures After(BOOT, steps).started == (Start in steps)
    decreases |steps|
  {
    if steps != [] {
      var init, last := steps[..|steps| - 1], steps[|steps| - 1];
      LastSplits(BOOT, steps);
      JoinedIsLast(init);
      StepJoined(After(BOOT, init), last);
      StartIn(steps, init, last);
    }
  }

  lemma StartIn(steps: seq<Step>, init: seq<Step>, last: Step)
    requires steps != [] && init == steps[..|steps| - 1] && last == steps[|steps| - 1]
    ensures Start in steps <==> Start in init || last == Start
  {
    assert steps == init + [last];
  }

  /**
   * In every reachable state: at most one of join and uplink is under way; a join is accepted exactly after a start
   * with nothing under way, an uplink only if moreover the last attempt joined; a refused call changes nothing.
   */
  lemma CallsAccepted(steps: seq<Step>, settings: Settings, u: Uplink)
    requires Runs(BOOT, steps) && |u.data| <= MAX_PAYLOAD
    ensures var s := After(BOOT, steps);
            var joined, sent := Next(s, Join(settings, OK)), Next(s, Send(u));
            var free := !s.joinPending && !s.txPending;
            && !(s.joinPending && s.txPending)
            && JoinRc(s, OK) == (if Start !in steps then ERR_NOT_READY else if !free then ERR_BUSY else OK)
            && SendRc(s) == (if Start !in steps then ERR_NOT_READY
                             else if !LastAttemptJoined(steps) then ERR_NOT_JOINED
                             else if !free then ERR_BUSY else OK)
            && (JoinRc(s, OK) != OK ==> joined == s) && (SendRc(s) != OK ==> sent == s)
            && (JoinRc(s, OK) == OK ==> joined.joinPending && !joined.joinStop)
            && (SendRc(s) == OK ==> sent.txPending && sent.logs.accepted == s.logs.accepted + [u])
  {
    RunKeepsOne(BOOT, steps);
    JoinedIsLast(steps);
  }

  // ----- What subscribers hear -----

  /** What the attempts decided, in order: successes, and failures that no leave has stopped. */
  function Decided(s: State, steps: seq<Step>): seq<JoinEvent>
    requires Runs(s, steps)
    decreases |steps|
  {
    if steps == [] then []
    else
      (if !steps[0].FinishJoin? then []
       else if steps[0].rc == 0 then [Joined]
       else if s.joinStop then []
       else [JoinFailed(steps[0].rc)])
      + Decided(Next(s, steps[0]), steps[1..])
  }

  function Undelivered(w: Worker): seq<JoinEvent> {
    if w.JoinReporting? then [w.event] else []
  }

  /** All that has been or is about to be heard. */
  function Heard(s: State): seq<JoinEvent> {
    s.logs.joinEvents + Undelivered(s.worker)
  }

  lemma StepHeard(s: State, step: Step)
    requires Enabled(s, step)
    ensures Heard(Next(s, step))
         == Heard(s) + if !step.FinishJoin? then []
                       else if step.rc == 0 then [Joined]
                       else if s.joinStop then []
                       else [JoinFailed(step.rc)]
  {
    assert Heard(s) + [] == Heard(s);
    if step.ReportJoin? {
      assert (s.logs.joinEvents + [s.worker.event]) + [] == s.logs.joinEvents + [s.worker.event];
    } else if step.FinishJoin? {
      assert s.logs.joinEvents + [] == s.logs.joinEvents;
    }
  }

  lemma {:induction false} RunHeard(s: State, steps: seq<Step>)
    requires Runs(s, steps)
    ensures Heard(After(s, steps)) == Heard(s) + Decided(s, steps)
    decreases |steps|
  {
    if steps == [] {
      assert Heard(s) + [] == Heard(s);
    } else {
      StepHeard(s, steps[0]);
      RunHeard(Next(s, steps[0]), steps[1..]);
      var first := if !steps[0].FinishJoin? then []
                   else if steps[0].rc == 0 then [Joined]
                   else if s.joinStop then []
                   else [JoinFailed(steps[0].rc)];
      assert (Heard(s) + first) + Decided(Next(s, steps[0]), steps[1..])
          == Heard(s) + (first + Decided(Next(s, steps[0]), steps[1..]));
    }
  }

  /** Every decision of an attempt is heard once, in order; at most the last is still being published. */
  lemma JoinEventsOnce(steps: seq<Step>)
    requires Runs(BOOT, steps)
    ensures var s := After(BOOT, steps);
            && s.logs.joinEvents <= Decided(BOOT, steps)
            && |Decided(BOOT, steps)| == |s.logs.joinEvents| + if s.worker.JoinReporting? then 1 else 0
  {
    RunHeard(BOOT, steps);
    assert [] + Decided(BOOT, steps) == Decided(BOOT, steps);
  }

  /** The status of an uplink says what the stack returned and, on success, whether it was confirmed. */
  lemma StatusesTellResults(steps: seq<Step>, i: nat)
    requires Runs(BOOT, steps) && i < |After(BOOT, steps).logs.done|
    ensures var log := After(BOOT, steps).logs;
            i < |log.handed| && i < |log.accepted| && log.handed[i].uplink == log.accepted[i]
    ensures var log := After(BOOT, steps).logs;
            && (log.done[i].NotSent? <==> log.handed[i].rc != 0)
            && (log.done[i].NotSent? ==> log.done[i].error == log.handed[i].rc)
            && (log.done[i].Confirmed? <==> log.handed[i].rc == 0 && log.accepted[i].confirmed)
            && (log.done[i].Sent? <==> log.handed[i].rc == 0 && !log.accepted[i].confirmed)
  {
    UplinksExactlyOnce(steps);
    var log := After(BOOT, steps).logs;
    assert log.done[i] == Statuses(log.handed)[i] && Uplinks(log.handed)[i] == log.accepted[i];
  }
}
