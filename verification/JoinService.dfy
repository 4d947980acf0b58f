/** The service file as written: flags, retry counter, bounded queue and dispatcher over the credential service. */
module JoinService {
  import opened Errors
  import opened Bytes
  import opened ChannelMask
  import opened Settings
  import opened Credentials
  import opened CredentialRuns
  import opened JoinSequence
  import opened JoinOutcomes
  import EventQueue
  import CredentialService

  class Service {
    const creds: CredentialService.Service
    const capacity: nat
    var events: seq<BackendEvent>
    var overflow: bool
    var active: bool
    var retries: int
    // What the environment has seen, and the queue's history.
    ghost var handed: Config
    ghost var published: seq<BackendEvent>
    ghost var heard: seq<BackendEvent>
    ghost var told: seq<BackendEvent>
    ghost var limitStops: nat
    ghost var q: EventQueue.Queue<BackendEvent>

    ghost predicate Valid()
      reads this, creds, creds.svc
    {
      && creds.Valid() && EventQueue.Sound(q)
      && q.queue == events && q.overflow == overflow && q.capacity == capacity
    }

    ghost function Now(): Sys
      reads this, creds, creds.svc
    {
      Sys(creds.Now(), active, retries, handed, published, heard, told, limitStops)
    }

    constructor (creds: CredentialService.Service, capacity: nat)
      requires creds.Valid() && 0 < capacity
      ensures Valid() && this.creds == creds && q == EventQueue.Empty(capacity)
      ensures !creds.cred.joinActive ==> Frozen(creds.caps, Now())
    {
      this.creds, this.capacity := creds, capacity;
      events, overflow, active, retries := [], false, false, 0;
      handed := Config(Otaa, 0, false, ZERO_MASK, AbpKeys([], [], []));
      published, heard, told, limitStops, q := [], [], [], 0, EventQueue.Empty(capacity);
    }

    /** First half of a publish: never blocks, and leaves a latch owed if the event does not fit. */
    method TryPut(e: BackendEvent) returns (kept: bool)
      requires Valid()
      modifies this
      ensures Valid() && kept == EventQueue.Fits(old(q)) && q == EventQueue.TryPut(old(q), e)
      ensures Now() == old(Now()).(published := old(published) + [e])
    {
      EventQueue.PutKeepsSound(q, e);
      kept := |events| < capacity;
      if kept {
        events := events + [e];
      }
      q, published := EventQueue.TryPut(q, e), published + [e];
    }

    /** Second half of a publish whose event was dropped. */
    method LatchOverflow()
      requires Valid() && q.owed > 0
      modifies this
      ensures Valid() && q == EventQueue.SetLatch(old(q)) && Now() == old(Now())
    {
      EventQueue.StepKeepsSound(q, EventQueue.Latch);
      overflow := true;
      q := EventQueue.SetLatch(q);
    }

    /** A publish that nothing interrupts between its halves. */
    method Publish(e: BackendEvent)
      requires Valid()
      modifies this
      ensures Valid() && q == EventQueue.Publish(old(q), e)
      ensures Now() == old(Now()).(published := old(published) + [e])
    {
      var kept := TryPut(e);
      if !kept {
        LatchOverflow();
      }
    }

    method PublishState(link: LinkState)
      requires Valid()
      modifies this
      ensures Valid() && q == EventQueue.Publish(old(q), StateChanged(link))
      ensures Now() == JoinSequence.Publish(old(Now()), link)
    {
      Publish(StateChanged(link));
    }

    method ClearSequence()
      requires Valid()
      modifies this, creds
      ensures Valid() && q == old(q) && Now() == JoinSequence.ClearSequence(old(Now()))
    {
      active := false;
      retries := 0;
      creds.SetJoinActive(false);
    }

    /** Counts a failed attempt of a running sequence and hides it until the limit is reached. */
    method Swallow(e: BackendEvent) returns (hidden: bool)
      requires Valid()
      modifies this, creds
      ensures Valid()
      ensures Dispatch(old(Now()), e) == if hidden then Now() else Deliver(Now(), e)
      ensures q == if e.JoinFailed? && old(active) && old(retries) <= 0
                   then EventQueue.Publish(old(q), StateChanged(Idle)) else old(q)
    {
      if e.Joined? {
        ClearSequence();
        return false;
      }
      if !e.JoinFailed? || !active {
        return false;
      }
      if retries > 0 {
        retries := retries - 1;
        return true;
      }
      ClearSequence();
      limitStops := limitStops + 1;
      PublishState(Idle);
      return false;
    }

    method DispatchEvent(e: BackendEvent)
      requires Valid()
      modifies this, creds
      ensures Valid() && Now() == Dispatch(old(Now()), e)
      ensures q == if e.JoinFailed? && old(active) && old(retries) <= 0
                   then EventQueue.Publish(old(q), StateChanged(Idle)) else old(q)
    {
      var hidden := Swallow(e);
      if !hidden {
        heard := heard + [e];
        told := if e.Fuota? then told else told + [e];
      }
    }

    /** Ghost bookkeeping: the dispatcher or a publisher takes one step of the queue. */
    ghost method Advance(s: EventQueue.Step<BackendEvent>)
      requires EventQueue.Sound(q) && EventQueue.Enabled(q, s)
      modifies this`q
      ensures EventQueue.Sound(q) && q == EventQueue.Next(old(q), s)
    {
      EventQueue.StepKeepsSound(q, s);
      q := EventQueue.Next(q, s);
    }

    method TakeEvent() returns (e: BackendEvent)
      requires Valid() && events != [] && q.phase.Waiting?
      modifies this
      ensures Valid() && q == EventQueue.Next(old(q), EventQueue.Get) && q.phase == EventQueue.Taken(e)
      ensures Now() == old(Now())
    {
      e := events[0];
      events := events[1..];
      Advance(EventQueue.Get);
    }

    /** The compare-and-swap of the overflow latch. */
    method TestOverflow() returns (latched: bool)
      requires Valid() && q.phase.Dispatched?
      modifies this
      ensures Valid() && q == EventQueue.Next(old(q), EventQueue.Test) && latched == old(overflow)
      ensures Now() == old(Now())
    {
      latched := overflow;
      Advance(EventQueue.Test);
      overflow := false;
    }

    /** One turn of the dispatcher loop, run without interference; a latched overflow is always reported. */
    method DispatchNext() returns (e: BackendEvent)
      requires Valid() && events != [] && q.phase.Waiting?
      modifies this, creds
      ensures Valid() && q.phase.Waiting? && !overflow && e == old(events[0])
      ensures q.dispatched == old(q).dispatched + [e]
      ensures if q.reports == old(q).reports then Now() == Dispatch(old(Now()), e) && !old(overflow)
              else q.reports == old(q).reports + 1
                   && Now() == Dispatch(Dispatch(old(Now()), e), ErrorEvent(ERR_OVERFLOW))
    {
      e := TakeEvent();
      DispatchEvent(e);
      Advance(EventQueue.Dispatch);
      var latched := TestOverflow();
      if latched {
        DispatchEvent(ErrorEvent(ERR_OVERFLOW));
        Advance(EventQueue.Report);
      }
    }

    /** The public initialisation; `backendRc` is what the backend's start returns. */
    method Initialise(region: byte, backendRc: int) returns (rc: int, saved: int)
      requires Valid()
      modifies this, creds, creds.svc
      ensures Valid() && InitialiseSpec(creds.svc.p, old(Now()), Now(), region, saved, backendRc, rc)
    {
      var before := creds.started;
      rc, saved := creds.Init(region, backendRc);
      if region <= REGION_RU_864 && !before && saved == OK {
        PublishState(Starting);
        if backendRc != OK {
          PublishState(Stopped);
        }
      }
    }

    method ClaimSequence(attempts: byte, config: Config, joinRc: int)
      requires Valid()
      modifies this, creds
      ensures Valid() && Now() == Claim(old(Now()), attempts, config, joinRc)
    {
      active := true;
      retries := attempts;
      creds.SetJoinActive(true);
      handed := config;
      PublishState(Joining);
      if joinRc != OK {
        ClearSequence();
        PublishState(Idle);
      }
    }

    /** `joinRc` is what the backend answers to the join request. */
    method BeginJoin(joinRc: int) returns (rc: int, ghost l: Loading, ghost build: Call, ghost built: Device)
      requires Valid() && creds.started
      modifies this, creds, creds.svc
      ensures Valid()
      ensures BeginSpec(creds.svc.p, creds.caps, old(Now()), Now(), rc, l, build, built, joinRc)
    {
      build, built := RebootAll, creds.Now();
      l, rc := creds.EnsureLoaded();
      if rc != OK {
        return;
      }
      var mode, attempts := creds.cred.njm, creds.cred.attempts;
      if !Supported(mode, creds.caps) {
        return ERR_NOT_SUPPORTED, l, build, built;
      }
      var config;
      ghost var regionRc, read, located, l2;
      rc, config, regionRc, read, located, l2 := creds.BuildConfig();
      build, built := Build(rc, config, regionRc, read, located, l2), creds.Now();
      if rc != OK {
        return;
      }
      if active {
        return ERR_BUSY, l, build, built;
      }
      ClaimSequence(attempts, config, joinRc);
      rc := joinRc;
    }

    method StopJoin(joinedRc: int, joined: bool, leaveRc: int) returns (rc: int)
      requires Valid()
      modifies this, creds
      ensures Valid() && (Now(), rc) == JoinSequence.StopJoin(old(Now()), joinedRc, joined, leaveRc)
    {
      var wasActive := active;
      ClearSequence();
      if !wasActive || !creds.started {
        return OK;
      }
      rc := joinedRc;
      if rc == OK && !joined {
        rc := leaveRc;
        if rc == ERR_NOT_SUPPORTED {
          rc := OK;
        }
      }
      if rc == OK && !joined {
        PublishState(Idle);
      }
    }

    method LeaveNetwork(leaveRc: int) returns (rc: int)
      requires Valid()
      modifies this
      ensures Valid() && (Now(), rc) == Leave(old(Now()), leaveRc)
    {
      if !creds.started {
        return ERR_NOT_READY;
      }
      rc := leaveRc;
      if rc == OK {
        PublishState(Idle);
      }
    }

    /** The second half of a join call, once the policy is updated. */
    method Follow(start: int, joinedRc: int, joined: bool, leaveRc: int, joinRc: int) returns (rc: int)
      requires Valid() && (start == KEEP || start == 0 || start == 1)
      modifies this, creds, creds.svc
      ensures Valid()
      ensures start == 0 ==> (Now(), rc) == JoinSequence.StopJoin(old(Now()), joinedRc, joined, leaveRc)
      ensures start == KEEP ==> rc == OK && Now() == old(Now())
      ensures start == 1 && !old(Now()).dev.started ==> rc == ERR_NOT_READY && Now() == old(Now())
      ensures start == 1 && old(Now()).dev.started ==>
                exists l, build, built ::
                  BeginSpec(creds.svc.p, creds.caps, old(Now()), Now(), rc, l, build, built, joinRc)
      ensures Followed(start, old(Now()), Now(), rc)
    {
      if start == KEEP {
        return OK;
      }
      if start == 0 {
        rc := StopJoin(joinedRc, joined, leaveRc);
        return;
      }
      if !creds.started {
        return ERR_NOT_READY;
      }
      ghost var l, build, built;
      rc, l, build, built := BeginJoin(joinRc);
      BeginReturns(creds.svc.p, creds.caps, old(Now()), Now(), rc, l, build, built, joinRc);
    }

    /** The public join call: update the policy, then stop or begin a sequence. */
    method Join(start: int, auto: int, interval: int, attempts: int, joinedRc: int, joined: bool, leaveRc: int,
                joinRc: int)
        returns (rc: int, ghost mid: Sys, ghost a: Action)
      requires Valid()
      modifies this, creds, creds.svc
      ensures Valid()
      ensures if start != KEEP && start != 0 && start != 1 then rc == ERR_INVALID && Now() == old(Now())
              else if start == 1 && old(active) then rc == ERR_BUSY && Now() == old(Now())
              else
                && a.ApiCall? && a.call.UpdatePolicy? && a.call.auto == auto
                && a.call.interval == interval && a.call.attempts == attempts
                && Act(creds.svc.p, creds.caps, old(Now()), a, mid)
                && if a.call.rc != OK then rc == a.call.rc && Now() == mid
                   else if start == 0 then (Now(), rc) == JoinSequence.StopJoin(mid, joinedRc, joined, leaveRc)
                   else if start == KEEP then rc == OK && Now() == mid
                   else if !mid.dev.started then rc == ERR_NOT_READY && Now() == mid
                   else exists l, build, built ::
                     BeginSpec(creds.svc.p, creds.caps, mid, Now(), rc, l, build, built, joinRc)
      ensures Followed(start, old(Now()), Now(), rc)
    {
      mid, a := Now(), Take(Joined);
      if start != KEEP && start != 0 && start != 1 {
        return ERR_INVALID, mid, a;
      }
      if start == 1 && active {
        return ERR_BUSY, mid, a;
      }
      ghost var l;
      rc, l := creds.UpdatePolicy(auto, interval, attempts);
      mid, a := Now(), ApiCall(UpdatePolicy(auto, interval, attempts, rc, l));
      PolicyKeepsJoinFlag(creds.svc.p, old(creds.Now()), creds.Now(), auto, interval, attempts, rc, l);
      if rc == OK {
        rc := Follow(start, joinedRc, joined, leaveRc, joinRc);
      }
    }
  }
}
