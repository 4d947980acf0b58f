/** What an application sees of a join sequence: how it begins, is given back and ends, and what is heard then. */
module JoinOutcomes {
  import opened Errors
  import opened Bytes
  import opened Settings
  import opened Credentials
  import opened CredentialRuns
  import opened JoinSequence

  /** No sequence: the two flags are down and no retry is left. */
  ghost predicate AtRest(s: Sys) {
    !s.active && !s.dev.cred.joinActive && s.retries == 0
  }

  /** The two flags agree, and without a sequence no retry is left. */
  ghost predicate Tidy(s: Sys) {
    s.dev.cred.joinActive == s.active && (!s.active ==> s.retries == 0)
  }

  // ----- Beginning -----

  /** The part of a begin before the claim: it moves caches and perhaps the region, but no flag. */
  lemma BeforeClaim(p: Env, caps: Caps, s: Sys, s': Sys, rc: int, l: Loading, build: Call, built: Device, joinRc: int)
    requires BeginSpec(p, caps, s, s', rc, l, build, built, joinRc)
    ensures l.mid.cred.joinActive == s.dev.cred.joinActive
    ensures l.rc == OK && Supported(l.mid.cred.njm, caps) ==> built.cred.joinActive == s.dev.cred.joinActive
  {
    CallKeepsJoinFlag(p, caps, s.dev, Getter(l), l.mid);
    if l.rc == OK && Supported(l.mid.cred.njm, caps) {
      CallKeepsJoinFlag(p, caps, l.mid, build, built);
    }
  }

  /** Whether a begin got as far as asking the backend: loaded, a mode the device supports, and a configuration. */
  ghost predicate AsksBackend(caps: Caps, l: Loading, build: Call) {
    && l.rc == OK && build.Build? && build.rc == OK
    && (if l.mid.cred.njm == Otaa then caps.otaa else caps.abp)
  }

  /**
   * A begin that fails gives everything back: no sequence runs afterwards and the setters are open again. If it was
   * the backend that refused, subscribers saw JOINING and then READY, and else nothing.
   */
  lemma RefusedBeginGivesBack(p: Env, caps: Caps, s: Sys, s': Sys, rc: int, l: Loading, build: Call,
                              built: Device, joinRc: int)
    requires AtRest(s) && BeginSpec(p, caps, s, s', rc, l, build, built, joinRc) && rc != OK
    ensures AtRest(s')
    ensures s'.published == s.published
                            + if AsksBackend(caps, l, build) then [StateChanged(Joining), StateChanged(Idle)] else []
    ensures AsksBackend(caps, l, build) ==> rc == joinRc
    ensures s'.heard == s.heard && s'.told == s.told && s'.limitStops == s.limitStops
  {
    BeforeClaim(p, caps, s, s', rc, l, build, built, joinRc);
    if AsksBackend(caps, l, build) {
      assert (s.published + [StateChanged(Joining)]) + [StateChanged(Idle)]
          == s.published + [StateChanged(Joining), StateChanged(Idle)];
    } else {
      assert s.published + [] == s.published;
    }
  }

  /** A begin that succeeds has a sequence running, frozen credentials, and JOINING published. */
  lemma AcceptedBeginClaims(p: Env, caps: Caps, s: Sys, s': Sys, l: Loading, build: Call, built: Device, joinRc: int)
    requires BeginSpec(p, caps, s, s', OK, l, build, built, joinRc)
    ensures !s.active && joinRc == OK && AsksBackend(caps, l, build)
    ensures s'.active && s'.dev.cred.joinActive && s'.retries == built.cred.attempts && s'.handed == build.config
    ensures s'.published == s.published + [StateChanged(Joining)]
    ensures s'.heard == s.heard && s'.told == s.told && s'.limitStops == s.limitStops
  {
  }

  /** How a begin ends, by its result alone. */
  lemma BeginReturns(p: Env, caps: Caps, s: Sys, s': Sys, rc: int, l: Loading, build: Call, built: Device, joinRc: int)
    requires BeginSpec(p, caps, s, s', rc, l, build, built, joinRc)
    ensures AtRest(s) && rc != OK ==> AtRest(s')
    ensures rc == OK ==> !s.active && s'.active && s'.dev.cred.joinActive
  {
    if rc == OK {
      AcceptedBeginClaims(p, caps, s, s', l, build, built, joinRc);
    } else if AtRest(s) {
      RefusedBeginGivesBack(p, caps, s, s', rc, l, build, built, joinRc);
    }
  }

  /** What a join call leaves: a failing one at rest leaves rest, a stop ends, a start that succeeds has begun. */
  ghost predicate Followed(start: int, s: Sys, s': Sys, rc: int) {
    && (AtRest(s) && rc != OK ==> AtRest(s'))
    && (start == 0 && rc == OK ==> AtRest(s'))
    && (start == 1 && rc == OK ==> !s.active && s'.active && s'.dev.cred.joinActive)
  }

  /** Only the mode the device is set to matters, and each mode has its own capability. */
  lemma UnsupportedModeRefused(p: Env, caps: Caps, s: Sys, s': Sys, rc: int, l: Loading, build: Call,
                               built: Device, joinRc: int)
    requires BeginSpec(p, caps, s, s', rc, l, build, built, joinRc) && l.rc == OK
    requires if l.mid.cred.njm == Otaa then !caps.otaa else !caps.abp
    ensures rc == ERR_NOT_SUPPORTED && s'.active == s.active && s'.published == s.published
  {
  }

  // ----- Ending -----

  /** JOINED ends the sequence, opens the setters and is heard once by everybody. */
  lemma JoinedEnds(p: Env, caps: Caps, s: Sys, s': Sys)
    requires Act(p, caps, s, Take(Joined), s')
    ensures AtRest(s') && s'.dev.settings == s.dev.settings && s'.dev.started == s.dev.started
    ensures s'.heard == s.heard + [Joined] && s'.told == s.told + [Joined]
    ensures s'.published == s.published && s'.handed == s.handed && s'.limitStops == s.limitStops
  {
  }

  /** A stop ends the sequence whatever the backend answers. */
  lemma StopEnds(p: Env, caps: Caps, s: Sys, s': Sys, joinedRc: int, joined: bool, leaveRc: int)
    requires Act(p, caps, s, Stop(joinedRc, joined, leaveRc), s')
    ensures AtRest(s') && s'.dev.settings == s.dev.settings && s'.heard == s.heard && s'.told == s.told
    ensures var leaves := s.active && s.dev.started && joinedRc == OK && !joined
                          && (leaveRc == OK || leaveRc == ERR_NOT_SUPPORTED);
            s'.published == s.published + if leaves then [StateChanged(Idle)] else []
  {
    assert s.published + [] == s.published;
  }

  /** What a stop returns: only a running sequence of a started service asks the backend, and its failure is told. */
  lemma StopReturns(s: Sys, joinedRc: int, joined: bool, leaveRc: int)
    ensures var rc := StopJoin(s, joinedRc, joined, leaveRc).1;
            && (!s.active || !s.dev.started ==> rc == OK)
            && (s.active && s.dev.started && joinedRc != OK ==> rc == joinedRc)
            && (s.active && s.dev.started && joinedRc == OK && joined ==> rc == OK)
            && (s.active && s.dev.started && joinedRc == OK && !joined ==>
                  if leaveRc == ERR_NOT_SUPPORTED then rc == OK else rc == leaveRc)
  {
  }

  /** A leave keeps the sequence; it publishes READY exactly when it succeeds. */
  lemma LeaveKeepsSequence(s: Sys, leaveRc: int)
    ensures var (t, rc) := Leave(s, leaveRc);
            && rc == (if !s.dev.started then ERR_NOT_READY else leaveRc)
            && t.active == s.active && t.retries == s.retries && t.dev == s.dev && t.handed == s.handed
            && t.published == s.published + if rc == OK then [StateChanged(Idle)] else []
  {
    assert s.published + [] == s.published;
  }

  /**
   * An initialisation that succeeds leaves the service started in its region with STARTING published; one that the
   * backend fails leaves it not started with STOPPED published last; any other refusal publishes nothing.
   */
  lemma InitialiseOutcome(p: Env, s: Sys, s': Sys, region: byte, saved: int, backendRc: int, rc: int)
    requires InitialiseSpec(p, s, s', region, saved, backendRc, rc)
    ensures rc == OK ==> !s.dev.started && s'.dev.started && s'.dev.region == region <= REGION_RU_864
                         && saved == OK && backendRc == OK && s'.published == s.published + [StateChanged(Starting)]
    ensures rc != OK ==> s'.dev.started == s.dev.started
    ensures region > REGION_RU_864 ==> rc == ERR_INVALID && s'.dev == s.dev
    ensures region <= REGION_RU_864 && s.dev.started ==> rc == ERR_ALREADY && s'.dev == s.dev
    ensures region <= REGION_RU_864 && !s.dev.started ==>
              && rc == (if saved != OK then saved else backendRc)
              && s'.published == s.published
                   + (if saved != OK then []
                      else if backendRc != OK then [StateChanged(Starting), StateChanged(Stopped)]
                      else [StateChanged(Starting)])
    ensures region > REGION_RU_864 || s.dev.started ==> s'.published == s.published
    ensures s'.active == s.active && s'.dev.cred == s.dev.cred
  {
    assert s.published + [] == s.published;
  }

  // ----- Over runs -----

  lemma ActKeepsTidy(p: Env, caps: Caps, s: Sys, a: Action, s': Sys)
    requires Tidy(s) && Act(p, caps, s, a, s')
    ensures Tidy(s')
  {
    match a
    case ApiCall(c) => CallKeepsJoinFlag(p, caps, s.dev, c, s'.dev);
    case Initialise(region, saved, backendRc, rc) => InitialiseOutcome(p, s, s', region, saved, backendRc, rc);
    case Begin(rc, l, build, built, joinRc) => BeginKeepsTidy(p, caps, s, s', rc, l, build, built, joinRc);
    case Stop(joinedRc, joined, leaveRc) => StopEnds(p, caps, s, s', joinedRc, joined, leaveRc);
    case LeaveNetwork(leaveRc) => LeaveKeepsSequence(s, leaveRc);
    case Take(e) =>
  }

  lemma BeginKeepsTidy(p: Env, caps: Caps, s: Sys, s': Sys, rc: int, l: Loading, build: Call, built: Device,
                       joinRc: int)
    requires Tidy(s) && BeginSpec(p, caps, s, s', rc, l, build, built, joinRc)
    ensures Tidy(s') && (rc != OK ==> s'.active == s.active)
  {
    if rc == OK {
      AcceptedBeginClaims(p, caps, s, s', l, build, built, joinRc);
    } else if s.active {
      BeforeClaim(p, caps, s, s', rc, l, build, built, joinRc);
    } else {
      RefusedBeginGivesBack(p, caps, s, s', rc, l, build, built, joinRc);
    }
  }

  /** In every reachable state the two flags agree, and without a sequence no retry is left. */
  lemma {:induction false} RunKeepsTidy(p: Env, caps: Caps, s: Sys, run: seq<SysTransition>)
    requires Tidy(s) && SysRun(p, caps, s, run)
    ensures Tidy(SysEnd(s, run))
    decreases |run|
  {
    if run != [] {
      ActKeepsTidy(p, caps, s, run[0].action, run[0].state);
      RunKeepsTidy(p, caps, run[0].state, run[1..]);
    }
  }

  predicate AcceptedBegin(a: Action) {
    a.Begin? && a.rc == OK
  }

  /** The events a run takes off the queue, in order. */
  ghost function TakenIn(run: seq<SysTransition>): seq<BackendEvent>
    decreases |run|
  {
    if run == [] then []
    else (if run[0].action.Take? then [run[0].action.event] else []) + TakenIn(run[1..])
  }

  lemma HeardOn(heard: seq<BackendEvent>, told: seq<BackendEvent>, a: seq<BackendEvent>, b: seq<BackendEvent>)
    ensures (heard + a) + b == heard + (a + b)
    ensures (told + ForSubscribers(a)) + ForSubscribers(b) == told + ForSubscribers(a + b)
  {
    ForSubscribersSplits(a, b);
  }

  lemma RestingAct(p: Env, caps: Caps, s: Sys, a: Action, s': Sys)
    requires AtRest(s) && Act(p, caps, s, a, s') && !AcceptedBegin(a)
    ensures AtRest(s')
    ensures s'.heard == s.heard + if a.Take? then [a.event] else []
    ensures s'.told == s.told + ForSubscribers(if a.Take? then [a.event] else [])
  {
    ActKeepsTidy(p, caps, s, a, s');
    assert s.heard + [] == s.heard && s.told + [] == s.told;
    if a.Begin? {
      RefusedBeginGivesBack(p, caps, s, s', a.rc, a.l, a.build, a.built, a.joinRc);
    } else if a.Take? {
      assert ForSubscribers([a.event]) == if a.event.Fuota? then [] else [a.event];
    }
  }

  /** Without a sequence nothing is swallowed: until a begin is accepted all events are heard, failed joins included. */
  lemma {:induction false} NothingSwallowedAtRest(p: Env, caps: Caps, s: Sys, run: seq<SysTransition>)
    requires AtRest(s) && SysRun(p, caps, s, run) && forall t | t in run :: !AcceptedBegin(t.action)
    ensures var e := SysEnd(s, run);
            AtRest(e) && e.heard == s.heard + TakenIn(run) && e.told == s.told + ForSubscribers(TakenIn(run))
    decreases |run|
  {
    if run == [] {
      assert s.heard + [] == s.heard && s.told + [] == s.told;
    } else {
      var a := run[0].action;
      RestingAct(p, caps, s, a, run[0].state);
      NothingSwallowedAtRest(p, caps, run[0].state, run[1..]);
      HeardOn(s.heard, s.told, if a.Take? then [a.event] else [], TakenIn(run[1..]));
    }
  }

  /** From JOINED until the next begin that is accepted, every failed join is heard. */
  lemma AllHeardAfterJoined(p: Env, caps: Caps, s: Sys, joined: SysTransition, run: seq<SysTransition>)
    requires joined.action == Take(Joined) && Act(p, caps, s, joined.action, joined.state)
    requires SysRun(p, caps, joined.state, run) && forall t | t in run :: !AcceptedBegin(t.action)
    ensures var e := SysEnd(joined.state, run);
            && AtRest(e) && e.heard == s.heard + [Joined] + TakenIn(run)
            && e.told == s.told + [Joined] + ForSubscribers(TakenIn(run))
  {
    JoinedEnds(p, caps, s, joined.state);
    NothingSwallowedAtRest(p, caps, joined.state, run);
  }
}
