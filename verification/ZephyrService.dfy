/** The Zephyr backend file as written: static flags and a transmit buffer changed by API calls and work handlers. */
module ZephyrService {
  import opened Errors
  import opened Bytes
  import opened ZephyrBackend

  class Service {
    var started: bool
    var joined: bool
    var joinPending: bool
    var joinStop: bool
    var txPending: bool
    var nextDevNonce: u16
    var joinSettings: Settings
    var txPort: byte
    var txSize: byte
    var txConfirmed: bool
    const txData: array<byte>
    // The work queue of the kernel: items waiting, and the handler that runs.
    var joinScheduled: bool
    var cancelling: bool
    var sendQueued: bool
    var worker: Worker
    // Whether an accepted send still has to be submitted, and what callers and stack have seen.
    ghost var submitOwed: bool
    ghost var logs: Logs

    ghost predicate Valid()
      reads this
    {
      txData.Length == MAX_PAYLOAD && txSize <= MAX_PAYLOAD
    }

    ghost function Now(): State
      requires Valid()
      reads this, txData
    {
      State(started, joined, joinPending, joinStop, txPending, nextDevNonce, joinSettings,
            Uplink(txPort, txData[..txSize], txConfirmed),
            joinScheduled, cancelling, submitOwed, sendQueued, worker, logs)
    }

    constructor ()
      ensures Valid() && fresh(txData) && Now() == BOOT
    {
      started, joined, joinPending, joinStop, txPending := false, false, false, false, false;
      nextDevNonce, joinSettings := 1, Settings(true, 0, 0);
      txPort, txSize, txConfirmed, txData := 0, 0, false, new byte[MAX_PAYLOAD](_ => 0);
      joinScheduled, cancelling, sendQueued, submitOwed, worker := false, false, false, false, Resting;
      logs := NO_LOGS;
    }

    /** `maskRc` is what applying the channel mask returns. */
    method RequestJoin(settings: Settings, maskRc: int) returns (rc: int)
      requires Valid()
      modifies this
      ensures Valid() && rc == JoinRc(old(Now()), maskRc)
      ensures Now() == AfterJoinCall(old(Now()), settings, maskRc)
    {
      rc := OK;
      if !started {
        rc := ERR_NOT_READY;
      } else if joinPending || txPending {
        rc := ERR_BUSY;
      } else {
        rc := maskRc;
      }
      if rc == OK {
        joinSettings := settings;
        joinPending := true;
        joinStop := false;
        ScheduleJoin();
      }
    }

    /** `startRc` is what setting the region and starting the stack return; an uplink needs a join first. */
    method BackendStart(startRc: int) returns (rc: int)
      requires Valid() && !started
      modifies this
      ensures Valid() && rc == startRc && Now() == if rc == OK then Next(old(Now()), Start) else old(Now())
      ensures rc == OK ==> SendRc(Now()) == ERR_NOT_JOINED
    {
      rc := startRc;
      if rc == OK {
        started := true;
        joined := false;
      }
    }

    /** The kernel takes a work item unless a cancel of its running handler is still pending. */
    method ScheduleJoin()
      modifies this`joinScheduled
      ensures joinScheduled == (old(joinScheduled) || !cancelling)
    {
      joinScheduled := joinScheduled || !cancelling;
    }

    /** Cancels a waiting work item, marks a running one, and reports whether it is still running. */
    method CancelJoin() returns (busy: bool)
      modifies this`joinScheduled, this`cancelling
      ensures busy == cancelling == InJoinHandler(worker) && !joinScheduled
    {
      joinScheduled := false;
      busy := InJoinHandler(worker);
      cancelling := busy;
    }

    method RequestLeave() returns (rc: int)
      requires Valid()
      modifies this
      ensures Valid() && rc == LeaveRc(old(Now())) && Now() == AfterLeave(old(Now()))
    {
      if !joinPending {
        return ERR_NOT_SUPPORTED;
      }
      joinStop := true;
      var busy := CancelJoin();
      if !busy {
        joinPending := false;
      }
      rc := OK;
    }

    /** Copies an uplink into the transmit buffer. */
    method FillBuffer(u: Uplink)
      requires Valid() && |u.data| <= MAX_PAYLOAD
      modifies this`txPort, this`txSize, this`txConfirmed, txData
      ensures Valid() && Uplink(txPort, txData[..txSize], txConfirmed) == u
    {
      txPort := u.port;
      txSize := |u.data|;
      txConfirmed := u.confirmed;
      for i := 0 to |u.data|
        modifies txData
        invariant txData[..i] == u.data[..i]
      {
        txData[i] := u.data[i];
      }
    }

    method SendCheck() returns (rc: int)
      requires Valid()
      ensures rc == SendRc(Now())
    {
      rc := if !started then ERR_NOT_READY
            else if !joined then ERR_NOT_JOINED
            else if joinPending || txPending then ERR_BUSY
            else OK;
    }

    /** The critical section of a send; the caller submits the work item afterwards. */
    method RequestSend(u: Uplink) returns (rc: int)
      requires Valid() && |u.data| <= MAX_PAYLOAD
      modifies this, txData
      ensures Valid() && rc == SendRc(old(Now())) && Now() == AfterSendCall(old(Now()), u)
    {
      rc := SendCheck();
      if rc == OK {
        FillBuffer(u);
        txPending := true;
        submitOwed := true;
        logs := logs.(accepted := logs.accepted + [u]);
      }
    }

    method SubmitSend()
      requires Valid() && submitOwed
      modifies this
      ensures Valid() && Now() == AfterSubmit(old(Now()))
    {
      sendQueued := true;
      submitOwed := false;
    }

    /** The public send, with nobody between its critical section and the submission. */
    method Transmit(u: Uplink) returns (rc: int)
      requires Valid() && |u.data| <= MAX_PAYLOAD
      modifies this, txData
      ensures Valid() && rc == SendRc(old(Now()))
      ensures rc == OK ==> sendQueued && txPending && logs.accepted == old(logs.accepted) + [u]
                           && Uplink(txPort, txData[..txSize], txConfirmed) == u
      ensures rc != OK ==> Now() == old(Now())
    {
      rc := RequestSend(u);
      if rc == OK {
        SubmitSend();
      }
    }

    /** The worker thread takes the join item and calls its handler. */
    method EnterJoinHandler()
      requires Valid() && worker.Resting? && joinScheduled
      modifies this
      ensures Valid() && Now() == AfterEnterJoin(old(Now()))
    {
      joinScheduled := false;
      worker := JoinEntered;
    }

    /** Takes the settings and, for OTAA, a device nonce: the one the application fixed or the next of its own. */
    method FillAttempt() returns (attempt: Attempt)
      requires Valid()
      modifies this`nextDevNonce
      ensures Valid() && attempt == AttemptFor(old(Now())) && nextDevNonce == NonceAfter(old(Now()))
    {
      var nonce: u16 := 0;
      if joinSettings.otaa {
        if joinSettings.devNonce != 0 {
          nonce := joinSettings.devNonce;
        } else {
          nonce := nextDevNonce;
          nextDevNonce := (nextDevNonce + 1) % 0x1_0000;
        }
      }
      attempt := Attempt(joinSettings, nonce);
    }

    /** First critical section of the join handler. */
    method JoinHandlerCheck() returns (proceed: bool, attempt: Attempt)
      requires Valid() && worker.JoinEntered?
      modifies this
      ensures Valid() && Now() == AfterCheck(old(Now()))
      ensures proceed == !old(joinStop) && (proceed ==> worker == Joining(attempt))
    {
      attempt := Attempt(joinSettings, 0);
      proceed := !joinStop;
      if proceed {
        attempt := FillAttempt();
        StartAttempt(attempt);
      } else {
        joinPending := false;
        worker := JoinReturning;
      }
    }

    method StartAttempt(attempt: Attempt)
      modifies this`worker, this`logs
      ensures worker == Joining(attempt) && logs == old(logs).(attempts := old(logs.attempts) + [attempt])
    {
      worker := Joining(attempt);
      logs := logs.(attempts := logs.attempts + [attempt]);
    }

    /** Second critical section, with what the stack's join returned; tells which event to publish, if any. */
    method JoinHandlerFinish(rc: int) returns (report: bool, event: JoinEvent)
      requires Valid() && worker.Joining?
      modifies this
      ensures Valid() && Now() == AfterJoin(old(Now()), rc)
      ensures if report then worker == JoinReporting(event) else worker.JoinReturning?
    {
      var stopped := joinStop;
      joined := rc == 0;
      if rc == 0 || stopped {
        joinPending := false;
      } else {
        joinScheduled := !cancelling;
      }
      event := if rc == 0 then Joined else JoinFailed(rc);
      report := !(stopped && rc != 0);
      if report {
        worker := JoinReporting(event);
      } else {
        worker := JoinReturning;
      }
    }

    method JoinHandlerReport(event: JoinEvent)
      requires Valid() && worker == JoinReporting(event)
      modifies this
      ensures Valid() && Now() == AfterReport(old(Now()), event)
    {
      logs := logs.(joinEvents := logs.joinEvents + [event]);
      worker := JoinReturning;
    }

    /** The join handler returns to the work queue. */
    method ReturnFromJoin()
      requires Valid() && worker.JoinReturning?
      modifies this
      ensures Valid() && Now() == AfterReturn(old(Now()))
    {
      cancelling := false;
      worker := Resting;
    }

    method EnterSendHandler()
      requires Valid() && worker.Resting? && sendQueued
      modifies this
      ensures Valid() && Now() == AfterEnterSend(old(Now()))
    {
      sendQueued := false;
      worker := SendEntered;
    }

    /** First critical section of the send handler: takes a copy of the buffer. */
    method SendHandlerCopy() returns (u: Uplink)
      requires Valid() && worker.SendEntered?
      modifies this
      ensures Valid() && Now() == AfterCopy(old(Now())) && worker == Sending(u)
    {
      u := Uplink(txPort, txData[..txSize], txConfirmed);
      worker := Sending(u);
    }

    /** The call into the stack, with what it returned. */
    method SendHandlerCall(u: Uplink, rc: int)
      requires Valid() && worker == Sending(u)
      modifies this
      ensures Valid() && Now() == AfterHandOver(old(Now()), u, rc) && worker == SendReturned(u.confirmed, rc)
    {
      logs := logs.(handed := logs.handed + [Handover(u, rc)]);
      worker := SendReturned(u.confirmed, rc);
    }

    /** Second critical section of the send handler. */
    method SendHandlerClear(confirmed: bool, rc: int) returns (status: TxStatus)
      requires Valid() && worker == SendReturned(confirmed, rc)
      modifies this
      ensures Valid() && status == StatusOf(confirmed, rc) && Now() == AfterClear(old(Now()), status)
    {
      txPending := false;
      if rc != 0 {
        status := NotSent(rc);
      } else if confirmed {
        status := Confirmed;
      } else {
        status := Sent;
      }
      worker := SendReporting(status);
    }

    method SendHandlerReport(status: TxStatus)
      requires Valid() && worker == SendReporting(status)
      modifies this
      ensures Valid() && Now() == AfterDone(old(Now()), status)
    {
      logs := logs.(done := logs.done + [status]);
      worker := Resting;
    }

    /** One turn of the worker on the join item, run without interference; `rc` is what the stack's join returns. */
    method RunJoinItem(rc: int)
      requires Valid() && worker.Resting? && joinScheduled && JoinSound(Now())
      modifies this
      ensures Valid() && worker.Resting?
      ensures if old(joinStop) then
                logs.attempts == old(logs.attempts) && logs.joinEvents == old(logs.joinEvents) && !joinPending
              else logs.attempts == old(logs.attempts) + [old(AttemptFor(Now()))]
                   && logs.joinEvents == old(logs.joinEvents) + [if rc == 0 then Joined else JoinFailed(rc)]
                   && joinPending == (rc != 0 && old(joinPending)) && joinScheduled == (rc != 0) && joined == (rc == 0)
    {
      EnterJoinHandler();
      var proceed, attempt := JoinHandlerCheck();
      if proceed {
        var report, event := JoinHandlerFinish(rc);
        if report {
          JoinHandlerReport(event);
        }
      }
      ReturnFromJoin();
    }

    /** One turn of the worker on the send item, run without interference; `rc` is what the stack's send returns. */
    method RunSendItem(rc: int) returns (status: TxStatus)
      requires Valid() && worker.Resting? && sendQueued
      modifies this
      ensures Valid() && worker.Resting? && !txPending && !sendQueued
      ensures status == StatusOf(old(txConfirmed), rc) && logs.done == old(logs.done) + [status]
      ensures logs.handed == old(logs.handed) + [Handover(old(Now().tx), rc)]
    {
      EnterSendHandler();
      var u := SendHandlerCopy();
      SendHandlerCall(u, rc);
      status := SendHandlerClear(u.confirmed, rc);
      SendHandlerReport(status);
    }
  }
}
