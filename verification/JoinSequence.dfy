/**
 * The join sequence of the LoRaWAN service. API calls and dispatched events are atomic steps; what the backend
 * returns is part of a step.
 */
module JoinSequence {
  import opened Options
  import opened Errors
  import opened Bytes
  import opened ChannelMask
  import opened Settings
  import opened SettingsRuns
  import opened Credentials
  import opened CredentialRuns
  import opened RegionRuns

  datatype LinkState = Stopped | Starting | Idle | Joining

  datatype BackendEvent =
    | Joined | JoinFailed | Fuota | ErrorEvent(code: int) | StateChanged(link: LinkState) | OtherEvent(kind: nat)

  /**
   * `handed` is the configuration last given to the backend; the rest logs what was published, what the event
   * consumers saw, and how often the service itself stopped the backend at the retry limit.
   */
  datatype Sys = Sys(dev: Device, active: bool, retries: int, handed: Config,
                     published: seq<BackendEvent>, heard: seq<BackendEvent>, told: seq<BackendEvent>, limitStops: nat)

  function Publish(s: Sys, link: LinkState): Sys {
    s.(published := s.published + [StateChanged(link)])
  }

  function ClearSequence(s: Sys): Sys {
    s.(active := false, retries := 0, dev := s.dev.(cred := s.dev.cred.(joinActive := false)))
  }

  function StartSequence(s: Sys, attempts: byte, config: Config): Sys {
    s.(active := true, retries := attempts, handed := config, dev := s.dev.(cred := s.dev.cred.(joinActive := true)))
  }

  /** Subscribers hear every event but the firmware-update ones; attached services hear all. */
  function Deliver(s: Sys, e: BackendEvent): Sys {
    s.(heard := s.heard + [e], told := if e.Fuota? then s.told else s.told + [e])
  }

  /** One event taken off the queue. */
  function Dispatch(s: Sys, e: BackendEvent): Sys {
    if e.Joined? then Deliver(ClearSequence(s), e)
    else if !e.JoinFailed? || !s.active then Deliver(s, e)
    else if s.retries > 0 then s.(retries := s.retries - 1)
    else Deliver(Publish(ClearSequence(s), Idle).(limitStops := s.limitStops + 1), e)
  }

  /** `stop_join`, with what the backend answers to is-joined and leave. */
  function StopJoin(s: Sys, joinedRc: int, joined: bool, leaveRc: int): (r: (Sys, int)) {
    var t := ClearSequence(s);
    if !s.active || !s.dev.started then (t, OK)
    else if joinedRc != OK then (t, joinedRc)
    else if joined then (t, OK)
    else if leaveRc == OK || leaveRc == ERR_NOT_SUPPORTED then (Publish(t, Idle), OK)
    else (t, leaveRc)
  }

  /** A leave request; it does not end a join sequence. */
  function Leave(s: Sys, leaveRc: int): (r: (Sys, int)) {
    if !s.dev.started then (s, ERR_NOT_READY)
    else if leaveRc != OK then (s, leaveRc)
    else (Publish(s, Idle), OK)
  }

  /** The state changes around the start of the backend. */
  function InitStates(d: Device, region: byte, saved: int, backendRc: int): seq<BackendEvent> {
    if region > REGION_RU_864 || d.started || saved != OK then []
    else if backendRc == OK then [StateChanged(Starting)]
    else [StateChanged(Starting), StateChanged(Stopped)]
  }

  ghost predicate InitialiseSpec(p: Env, s: Sys, s': Sys, region: byte, saved: int, backendRc: int, rc: int) {
    && Total(s.dev.settings.slots) && InitSpec(p, s.dev, s'.dev, region, saved, backendRc, rc)
    && s' == s.(dev := s'.dev, published := s.published + InitStates(s.dev, region, saved, backendRc))
  }

  /** Claims the sequence and starts the backend; a refusal undoes the claim. */
  function Claim(s: Sys, attempts: byte, config: Config, joinRc: int): Sys {
    var t := Publish(StartSequence(s, attempts, config), Joining);
    if joinRc == OK then t else Publish(ClearSequence(t), Idle)
  }

  /** `begin_join`: load, check the mode, build the configuration, claim the sequence, start the backend. */
  ghost predicate BeginSpec(p: Env, caps: Caps, s: Sys, s': Sys, rc: int, l: Loading, build: Call, built: Device,
                            joinRc: int)
  {
    && s.dev.started && Total(s.dev.settings.slots)
    && EnsureLoaded(p, s.dev, l) && Total(l.mid.settings.slots)
    && if l.rc != OK then rc == l.rc && s' == s.(dev := l.mid)
       else if !Supported(l.mid.cred.njm, caps) then rc == ERR_NOT_SUPPORTED && s' == s.(dev := l.mid)
       else
         && build.Build? && Perform(p, caps, l.mid, build, built)
         && var t := s.(dev := built);
            if build.rc != OK then rc == build.rc && s' == t
            else if s.active then rc == ERR_BUSY && s' == t
            else rc == joinRc && s' == Claim(t, built.cred.attempts, build.config, joinRc)
  }

  datatype Action =
    | ApiCall(call: Call)
    | Initialise(region: byte, saved: int, backendRc: int, rc: int)
    | Begin(rc: int, l: Loading, build: Call, built: Device, joinRc: int)
    | Stop(joinedRc: int, joined: bool, leaveRc: int)
    | LeaveNetwork(leaveRc: int)
    | Take(event: BackendEvent)

  datatype SysTransition = SysTransition(action: Action, state: Sys)

  ghost predicate Act(p: Env, caps: Caps, s: Sys, a: Action, s': Sys) {
    match a
    case ApiCall(c) =>
      !c.JoinActive? && !c.RebootAll? && !c.Init? && Perform(p, caps, s.dev, c, s'.dev) && s' == s.(dev := s'.dev)
    case Initialise(region, saved, backendRc, rc) => InitialiseSpec(p, s, s', region, saved, backendRc, rc)
    case Begin(rc, l, build, built, joinRc) => BeginSpec(p, caps, s, s', rc, l, build, built, joinRc)
    case Stop(joinedRc, joined, leaveRc) => s' == StopJoin(s, joinedRc, joined, leaveRc).0
    case LeaveNetwork(leaveRc) => s' == Leave(s, leaveRc).0
    case Take(e) => s' == Dispatch(s, e)
  }

  ghost predicate SysRun(p: Env, caps: Caps, s: Sys, run: seq<SysTransition>)
    decreases |run|
  {
    run != [] ==> Act(p, caps, s, run[0].action, run[0].state) && SysRun(p, caps, run[0].state, run[1..])
  }

  ghost function SysEnd(s: Sys, run: seq<SysTransition>): Sys {
    if run == [] then s else run[|run| - 1].state
  }

  // ----- Frozen credentials -----

  predicate SameButInterval(a: Config, b: Config) {
    a.(retryInterval := 0) == b.(retryInterval := 0)
  }

  /** The two "active" flags agree, and while they are set the struct still yields the configuration handed over. */
  ghost predicate Frozen(caps: Caps, s: Sys) {
    && s.dev.cred.joinActive == s.active && 0 <= s.retries
    && (s.active ==>
          && s.dev.cred.loaded && s.dev.started
          && SameButInterval(s.handed, ConfigFrom(s.dev.cred, s.dev.region, caps)))
  }

  lemma PolicyKeepsJoinFlag(p: Env, d: Device, d': Device, auto: int, interval: int, attempts: int, rc: int, l: Loading)
    requires UpdatePolicySpec(p, d, d', auto, interval, attempts, rc, l)
    ensures d'.cred.joinActive == d.cred.joinActive
  {
  }

  lemma CallKeepsJoinFlag(p: Env, caps: Caps, d: Device, c: Call, d': Device)
    requires Perform(p, caps, d, c, d') && !c.JoinActive? && !c.RebootAll?
    ensures d'.cred.joinActive == d.cred.joinActive
  {
    match c
    case SetField(k, src, rc, l) => FieldKeepsJoinFlag(p, d, d', k, src, rc, l);
    case SetActivation(mode, rc, l) => ActivationKeepsJoinFlag(p, d, d', mode, caps, rc, l);
    case SetMask(mask, rc, l) => MaskKeepsJoinFlag(p, d, d', mask, rc, l);
    case UpdatePolicy(auto, interval, attempts, rc, l) =>
      PolicyKeepsJoinFlag(p, d, d', auto, interval, attempts, rc, l);
    case _ =>
  }

  lemma FieldKeepsJoinFlag(p: Env, d: Device, d': Device, k: Key, src: seq<byte>, rc: int, l: Loading)
    requires IsField(k) && SetFieldSpec(p, d, d', k, src, rc, l)
    ensures d'.cred.joinActive == d.cred.joinActive
  {
  }

  lemma ActivationKeepsJoinFlag(p: Env, d: Device, d': Device, mode: Option<Activation>, caps: Caps, rc: int,
                                l: Loading)
    requires SetActivationSpec(p, d, d', mode, caps, rc, l)
    ensures d'.cred.joinActive == d.cred.joinActive
  {
  }

  lemma MaskKeepsJoinFlag(p: Env, d: Device, d': Device, mask: Option<Words>, rc: int, l: Loading)
    requires SetMaskSpec(p, d, d', mask, rc, l)
    ensures d'.cred.joinActive == d.cred.joinActive
  {
  }

  /** While a join runs, every call but a reboot leaves all of the struct but the join policy as it is. */
  lemma ActiveCallKeepsConfig(p: Env, caps: Caps, d: Device, c: Call, d': Device)
    requires d.cred.joinActive && d.cred.loaded && d.started
    requires Perform(p, caps, d, c, d') && !c.JoinActive? && !c.RebootAll?
    ensures d'.started && d'.region == d.region && d'.cred.loaded && d'.cred.joinActive
    ensures SameButInterval(ConfigFrom(d'.cred, d'.region, caps), ConfigFrom(d.cred, d.region, caps))
  {
  }

  lemma CallKeepsFrozen(p: Env, caps: Caps, s: Sys, c: Call, d': Device)
    requires Frozen(caps, s) && Perform(p, caps, s.dev, c, d') && !c.JoinActive? && !c.RebootAll?
    ensures Frozen(caps, s.(dev := d'))
  {
    if s.active {
      ActiveCallKeepsConfig(p, caps, s.dev, c, d');
    } else {
      CallKeepsJoinFlag(p, caps, s.dev, c, d');
    }
  }

  lemma ClaimKeepsFrozen(caps: Caps, s: Sys, attempts: byte, config: Config, joinRc: int)
    requires s.dev.cred.loaded && s.dev.started && config == ConfigFrom(s.dev.cred, s.dev.region, caps)
    ensures Frozen(caps, Claim(s, attempts, config, joinRc))
  {
  }

  lemma BeginKeepsFrozen(p: Env, caps: Caps, s: Sys, s': Sys, rc: int, l: Loading, build: Call,
                         built: Device, joinRc: int)
    requires Frozen(caps, s)
    requires BeginSpec(p, caps, s, s', rc, l, build, built, joinRc)
    ensures Frozen(caps, s')
  {
    var t := s.(dev := l.mid);
    CallKeepsFrozen(p, caps, s, Getter(l), l.mid);
    if l.rc == OK && Supported(l.mid.cred.njm, caps) {
      CallKeepsFrozen(p, caps, t, build, built);
      if build.rc == OK && !s.active {
        ClaimKeepsFrozen(caps, t.(dev := built), built.cred.attempts, build.config, joinRc);
      }
    }
  }

  lemma StopKeepsFrozen(caps: Caps, s: Sys, joinedRc: int, joined: bool, leaveRc: int)
    requires Frozen(caps, s)
    ensures Frozen(caps, StopJoin(s, joinedRc, joined, leaveRc).0)
  {
  }

  lemma DispatchKeepsFrozen(caps: Caps, s: Sys, e: BackendEvent)
    requires Frozen(caps, s)
    ensures Frozen(caps, Dispatch(s, e))
  {
  }

  lemma ActKeepsFrozen(p: Env, caps: Caps, s: Sys, a: Action, s': Sys)
    requires Frozen(caps, s) && Act(p, caps, s, a, s')
    ensures Frozen(caps, s')
  {
    match a
    case ApiCall(c) => CallKeepsFrozen(p, caps, s, c, s'.dev);
    case Initialise(region, saved, backendRc, rc) =>
      CallKeepsFrozen(p, caps, s, Init(region, saved, backendRc, rc), s'.dev);
    case Begin(rc, l, build, built, joinRc) => BeginKeepsFrozen(p, caps, s, s', rc, l, build, built, joinRc);
    case Stop(joinedRc, joined, leaveRc) => StopKeepsFrozen(caps, s, joinedRc, joined, leaveRc);
    case LeaveNetwork(leaveRc) =>
    case Take(e) => DispatchKeepsFrozen(caps, s, e);
  }

  lemma {:induction false} RunKeepsFrozen(p: Env, caps: Caps, s: Sys, run: seq<SysTransition>)
    requires Frozen(caps, s) && SysRun(p, caps, s, run)
    ensures Frozen(caps, SysEnd(s, run))
    decreases |run|
  {
    if run != [] {
      ActKeepsFrozen(p, caps, s, run[0].action, run[0].state);
      RunKeepsFrozen(p, caps, run[0].state, run[1..]);
    }
  }

  /** In every reachable state with a running sequence, a rebuild succeeds and differs in the interval at most. */
  lemma RebuildMatchesHanded(p: Env, caps: Caps, s: Sys, run: seq<SysTransition>, build: Call, d': Device)
    requires Frozen(caps, s) && SysRun(p, caps, s, run) && SysEnd(s, run).active
    requires build.Build? && Perform(p, caps, SysEnd(s, run).dev, build, d')
    ensures build.rc == OK && SameButInterval(build.config, SysEnd(s, run).handed)
  {
    RunKeepsFrozen(p, caps, s, run);
  }

  /** With the caches in step and the region fresh, flash itself still holds what the backend was given. */
  lemma FlashMatchesHanded(p: Env, caps: Caps, s: Sys)
    requires Frozen(caps, s) && s.active && Synced(p, s.dev) && RegionFresh(p, s.dev)
    ensures var v := ViewOf(p, s.dev.settings.store);
            Loads(v) && v[Region] == Value([s.dev.region], true)
            && SameButInterval(s.handed, StoredConfig(v, s.dev.region, caps))
  {
    ConfigOfMatch(ViewOf(p, s.dev.settings.store), s.dev.cred, s.dev.region, caps);
  }

  ghost predicate FlashInStep(p: Env, d: Device) {
    Synced(p, d) && RegionFresh(p, d)
  }

  /** While no sequence runs, a clear succeeds and finds the service not started. */
  ghost predicate OnlyEarlyClears(s: Sys, run: seq<SysTransition>)
    decreases |run|
  {
    run != [] ==>
      var a := run[0].action;
      && (a.ApiCall? && a.call.ClearAll? && !s.active ==> a.call.rc == OK && !s.dev.started)
      && OnlyEarlyClears(run[0].state, run[1..])
  }

  lemma FlagKeepsFlash(p: Env, d: Device, active: bool)
    requires FlashInStep(p, d)
    ensures FlashInStep(p, d.(cred := d.cred.(joinActive := active)))
  {
  }

  /** Of the device, the end of a sequence touches the join flag alone. */
  predicate OnlyFlag(d: Device, d': Device) {
    d' == d.(cred := d.cred.(joinActive := d'.cred.joinActive))
  }

  lemma StopMovesFlag(s: Sys, joinedRc: int, joined: bool, leaveRc: int)
    ensures OnlyFlag(s.dev, StopJoin(s, joinedRc, joined, leaveRc).0.dev)
  {
  }

  lemma DispatchMovesFlag(s: Sys, e: BackendEvent)
    ensures OnlyFlag(s.dev, Dispatch(s, e).dev)
  {
  }

  lemma ClaimMovesFlag(s: Sys, attempts: byte, config: Config, joinRc: int)
    ensures OnlyFlag(s.dev, Claim(s, attempts, config, joinRc).dev)
  {
  }

  lemma CallKeepsFlash(p: Env, caps: Caps, d: Device, c: Call, d': Device)
    requires FlashInStep(p, d) && Perform(p, caps, d, c, d')
    requires c.ClearAll? && !d.cred.joinActive ==> c.rc == OK && !d.started
    ensures FlashInStep(p, d')
  {
    CallKeepsSync(p, caps, d, c, d');
    RegionStaysFresh(p, caps, d, c, d');
  }

  lemma BeginKeepsFlash(p: Env, caps: Caps, s: Sys, s': Sys, rc: int, l: Loading, build: Call,
                        built: Device, joinRc: int)
    requires FlashInStep(p, s.dev) && BeginSpec(p, caps, s, s', rc, l, build, built, joinRc)
    ensures FlashInStep(p, s'.dev)
  {
    CallKeepsFlash(p, caps, s.dev, Getter(l), l.mid);
    if l.rc == OK && Supported(l.mid.cred.njm, caps) {
      CallKeepsFlash(p, caps, l.mid, build, built);
      ClaimMovesFlag(s.(dev := built), built.cred.attempts, build.config, joinRc);
      FlagKeepsFlash(p, built, s'.dev.cred.joinActive);
    }
  }

  lemma ActKeepsFlash(p: Env, caps: Caps, s: Sys, a: Action, s': Sys)
    requires Frozen(caps, s) && FlashInStep(p, s.dev) && Act(p, caps, s, a, s')
    requires a.ApiCall? && a.call.ClearAll? && !s.active ==> a.call.rc == OK && !s.dev.started
    ensures FlashInStep(p, s'.dev)
  {
    match a
    case ApiCall(c) => CallKeepsFlash(p, caps, s.dev, c, s'.dev);
    case Initialise(region, saved, backendRc, rc) =>
      CallKeepsFlash(p, caps, s.dev, Init(region, saved, backendRc, rc), s'.dev);
    case Begin(rc, l, build, built, joinRc) => BeginKeepsFlash(p, caps, s, s', rc, l, build, built, joinRc);
    case Stop(joinedRc, joined, leaveRc) =>
      StopMovesFlag(s, joinedRc, joined, leaveRc);
      FlagKeepsFlash(p, s.dev, s'.dev.cred.joinActive);
    case LeaveNetwork(_) =>
    case Take(e) =>
      DispatchMovesFlag(s, e);
      FlagKeepsFlash(p, s.dev, s'.dev.cred.joinActive);
  }

  lemma {:induction false} RunKeepsFlash(p: Env, caps: Caps, s: Sys, run: seq<SysTransition>)
    requires Frozen(caps, s) && FlashInStep(p, s.dev) && SysRun(p, caps, s, run) && OnlyEarlyClears(s, run)
    ensures Frozen(caps, SysEnd(s, run)) && FlashInStep(p, SysEnd(s, run).dev)
    decreases |run|
  {
    if run != [] {
      ActKeepsFrozen(p, caps, s, run[0].action, run[0].state);
      ActKeepsFlash(p, caps, s, run[0].action, run[0].state);
      RunKeepsFlash(p, caps, run[0].state, run[1..]);
    }
  }

  /**
   * Over every run in which a clear between sequences succeeds and comes before the start: while a sequence runs,
   * flash holds what the backend was given, whatever the calls, failures and events before.
   */
  lemma FlashHoldsHanded(p: Env, caps: Caps, s: Sys, run: seq<SysTransition>)
    requires Frozen(caps, s) && FlashInStep(p, s.dev) && SysRun(p, caps, s, run) && OnlyEarlyClears(s, run)
    requires SysEnd(s, run).active
    ensures var e := SysEnd(s, run);
            var v := ViewOf(p, e.dev.settings.store);
            && Loads(v) && v[Region] == Value([e.dev.region], true)
            && SameButInterval(e.handed, StoredConfig(v, e.dev.region, caps))
  {
    RunKeepsFlash(p, caps, s, run);
    FlashMatchesHanded(p, caps, SysEnd(s, run));
  }

  /** A running sequence refuses every clear, so as long as it runs no condition on clears is needed. */
  lemma {:induction false} ActiveRefusesClears(s: Sys, run: seq<SysTransition>)
    requires s.active && forall t | t in run :: t.state.active
    ensures OnlyEarlyClears(s, run) && SysEnd(s, run).active
    decreases |run|
  {
    if run != [] {
      ActiveRefusesClears(run[0].state, run[1..]);
    }
  }

  /** From its first state to its last, a sequence finds in flash what the backend was given. */
  lemma FlashHoldsWhileActive(p: Env, caps: Caps, s: Sys, run: seq<SysTransition>)
    requires Frozen(caps, s) && FlashInStep(p, s.dev) && SysRun(p, caps, s, run)
    requires s.active && forall t | t in run :: t.state.active
    ensures var e := SysEnd(s, run);
            var v := ViewOf(p, e.dev.settings.store);
            && Loads(v) && v[Region] == Value([e.dev.region], true)
            && SameButInterval(e.handed, StoredConfig(v, e.dev.region, caps))
  {
    ActiveRefusesClears(s, run);
    FlashHoldsHanded(p, caps, s, run);
  }

  // ----- Counting failed attempts -----

  /** Neither stops the sequence nor ends it with success. */
  predicate Quiet(a: Action) {
    !a.Stop? && !(a.Take? && a.event.Joined?)
  }

  predicate IsFailure(a: Action) {
    a.Take? && a.event.JoinFailed?
  }

  /** Failed attempts dispatched in a run. */
  ghost function Failures(run: seq<SysTransition>): nat
    decreases |run|
  {
    if run == [] then 0 else (if IsFailure(run[0].action) then 1 else 0) + Failures(run[1..])
  }

  /** The other events dispatched in a run, in order. */
  ghost function Others(run: seq<SysTransition>): seq<BackendEvent>
    decreases |run|
  {
    if run == [] then []
    else
      var a := run[0].action;
      (if a.Take? && !IsFailure(a) then [a.event] else []) + Others(run[1..])
  }

  function ForSubscribers(events: seq<BackendEvent>): seq<BackendEvent> {
    if events == [] then []
    else (if events[0].Fuota? then [] else [events[0]]) + ForSubscribers(events[1..])
  }

  lemma {:induction false} ForSubscribersSplits(a: seq<BackendEvent>, b: seq<BackendEvent>)
    ensures ForSubscribers(a + b) == ForSubscribers(a) + ForSubscribers(b)
  {
    if a == [] {
      assert a + b == b;
    } else {
      assert (a + b)[1..] == a[1..] + b;
      ForSubscribersSplits(a[1..], b);
    }
  }

  lemma QuietAct(p: Env, caps: Caps, s: Sys, a: Action, s': Sys)
    requires s.active && Act(p, caps, s, a, s') && Quiet(a) && (IsFailure(a) ==> s.retries > 0)
    ensures s'.active && s'.handed == s.handed && s'.limitStops == s.limitStops
    ensures s'.retries == s.retries - (if IsFailure(a) then 1 else 0)
    ensures s'.heard == s.heard + (if a.Take? && !IsFailure(a) then [a.event] else [])
    ensures s'.told == s.told + (if a.Take? && !IsFailure(a) then ForSubscribers([a.event]) else [])
  {
  }

  lemma Reassociate<T>(a: seq<T>, b: seq<T>, c: seq<T>)
    ensures (a + b) + c == a + (b + c)
  {
  }

  /** Up to the limit, failed attempts are counted and reach nobody, and nothing else is lost. */
  lemma {:induction false} RetriesAreSwallowed(p: Env, caps: Caps, s: Sys, run: seq<SysTransition>)
    requires s.active && SysRun(p, caps, s, run) && Failures(run) <= s.retries
    requires forall t | t in run :: Quiet(t.action)
    ensures var e := SysEnd(s, run);
            && e.active && e.retries == s.retries - Failures(run)
            && e.handed == s.handed && e.limitStops == s.limitStops
            && e.heard == s.heard + Others(run) && e.told == s.told + ForSubscribers(Others(run))
    decreases |run|
  {
    if run != [] {
      var a, s' := run[0].action, run[0].state;
      QuietAct(p, caps, s, a, s');
      RetriesAreSwallowed(p, caps, s', run[1..]);
      var first: seq<BackendEvent> := if a.Take? && !IsFailure(a) then [a.event] else [];
      var rest := Others(run[1..]);
      assert Others(run) == first + rest;
      ForSubscribersSplits(first, rest);
      Reassociate(s.heard, first, rest);
      Reassociate(s.told, ForSubscribers(first), ForSubscribers(rest));
    }
  }

  /**
   * A sequence with n retries that is neither stopped nor joined swallows exactly its first n failures; the next
   * one is delivered once, ends the sequence, stops the backend once and publishes the idle state.
   */
  lemma RetryLimit(p: Env, caps: Caps, s: Sys, run: seq<SysTransition>)
    requires s.active && SysRun(p, caps, s, run) && Failures(run) == s.retries
    requires forall t | t in run :: Quiet(t.action)
    ensures var before := SysEnd(s, run);
            var after := Dispatch(before, JoinFailed);
            && !after.active && !after.dev.cred.joinActive && after.limitStops == s.limitStops + 1
            && after.heard == s.heard + Others(run) + [JoinFailed]
            && after.told == s.told + ForSubscribers(Others(run)) + [JoinFailed]
            && after.published == before.published + [StateChanged(Idle)]
  {
    RetriesAreSwallowed(p, caps, s, run);
  }

  /** A sequence starts with the retries of the stored join policy. */
  lemma BeginStartsCount(p: Env, caps: Caps, s: Sys, s': Sys, l: Loading, build: Call, built: Device, joinRc: int)
    requires Synced(p, s.dev) && BeginSpec(p, caps, s, s', OK, l, build, built, joinRc)
    requires build.rc == OK && joinRc == OK
    ensures var v := ViewOf(p, s.dev.settings.store);
            s'.active && Loads(v) && s'.retries == v[JoinPolicy].value[2]
  {
    LoadKeepsSync(p, s.dev, l);
    BuildIsStoredConfig(p, caps, l.mid, build, built);
    assert IsLoaded(JoinPolicy);
  }
}
