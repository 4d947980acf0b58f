/** What a full clear leaves behind: the factory credentials, until a setter of theirs succeeds. */
module FactoryReset {
  import opened Options
  import opened Errors
  import opened Bytes
  import opened ChannelMask
  import opened Settings
  import opened SettingsRuns
  import opened Credentials
  import opened CredentialRuns

  function Zeros(n: nat): seq<byte> {
    seq(n, _ => 0)
  }

  /** OTAA with blank keys, the default interval and no channel restriction, in every region. */
  const FACTORY_CONFIG :=
    Config(Otaa, JOIN_INTERVAL_DEFAULT, false, ZERO_MASK, OtaaKeys(Zeros(8), Zeros(8), Zeros(16), Zeros(16)))

  /** A key that takes part in a credential, under its current or a legacy layout. */
  predicate OfCredential(k: Key) {
    IsLoaded(k) || IsSplit(k)
  }

  /** No credential is stored or cached; other settings may be. */
  ghost predicate Unset(s: State) {
    && Total(s.slots)
    && (forall n: Name | OfCredential(n.key) :: Stored(s.store, n) == [])
    && forall k: Key | OfCredential(k) && s.slots[k].loaded :: s.slots[k] == Slot(true, false, Default(k))
  }

  ghost predicate Reset(d: Device) {
    Unset(d.settings) && (d.cred.loaded ==> CredMatches(DefaultView(), d.cred))
  }

  // ----- Settings -----

  /** A successful write of a key that takes part in a credential. */
  predicate SetsCredential(e: Event) {
    e.Write? && e.rc == OK && OfCredential(e.key)
  }

  lemma UnsetResolves(p: Env, s: State, k: Key)
    requires Unset(s) && OfCredential(k)
    ensures Resolve(p, s.store, k) == Value(Default(k), false)
  {
    EmptyResolvesToDefault(p, s.store, k);
  }

  lemma SaveKeepsUnset(p: Env, s: State, k: Key, value: seq<byte>, slots: map<Key, Slot>)
    requires Unset(s) && !OfCredential(k) && |value| == Size(k) && Total(slots)
    requires forall j: Key | j != k :: slots[j] == s.slots[j]
    ensures Unset(State(Saved(p, s.store, k, value), slots))
  {
  }

  lemma ReadKeepsUnset(p: Env, s: State, e: Event, s': State)
    requires Unset(s) && e.Read? && Step(p, s, e, s')
    ensures Unset(s')
    ensures OfCredential(e.key) && e.rc == OK ==> e.value == Default(e.key) && !e.found
  {
    ReadStaysTotal(p, s, e, s');
    if OfCredential(e.key) {
      UnsetResolves(p, s, e.key);
    } else if s'.store != s.store {
      SaveKeepsUnset(p, s, e.key, e.value, s'.slots);
    }
  }

  lemma WriteKeepsUnset(p: Env, s: State, e: Event, s': State)
    requires Unset(s) && e.Write? && !SetsCredential(e) && Step(p, s, e, s')
    ensures Unset(s')
  {
    if s'.store != s.store {
      SaveKeepsUnset(p, s, e.key, e.value, s'.slots);
    }
  }

  /** Reads, failed writes, writes of other settings, clears that fail for any names, and reboots. */
  lemma StepKeepsUnset(p: Env, s: State, e: Event, s': State)
    requires Unset(s) && Step(p, s, e, s') && !SetsCredential(e)
    ensures Unset(s')
  {
    match e
    case Read(_, _, _, _, _, _) => ReadKeepsUnset(p, s, e, s');
    case Write(_, _, _, _) => WriteKeepsUnset(p, s, e, s');
    case Clear(_, _) =>
    case Reboot =>
  }

  // ----- Loads -----

  lemma {:induction false} ChainKeepsUnset(p: Env, s: State, trail: seq<Transition>)
    requires Unset(s) && Chain(p, s, trail)
    ensures Unset(ChainEnd(s, trail)) && |trail| <= |LOAD_KEYS|
    ensures ChainRc(trail) == OK ==> AllReported(DefaultView(), trail)
  {
    if trail != [] {
      var last := |trail| - 1;
      ChainKeepsUnset(p, s, trail[..last]);
      LoadPositions(last);
      ReadKeepsUnset(p, ChainEnd(s, trail[..last]), trail[last].event, trail[last].state);
      if ChainRc(trail) == OK {
        ExtendReported(DefaultView(), trail);
      }
    }
  }

  lemma LoadKeepsReset(p: Env, d: Device, l: Loading)
    requires Reset(d) && EnsureLoaded(p, d, l)
    ensures Reset(l.mid) && (l.rc == OK ==> l.mid.cred.loaded)
  {
    if !d.cred.loaded {
      ChainKeepsUnset(p, d.settings, l.trail);
      if l.rc == OK {
        RepliesArePicked(DefaultView(), l.trail, l.replies);
      }
    }
  }

  // ----- Calls -----

  /** A setter of a credential that succeeds. */
  predicate SucceedingSetter(c: Call) {
    (c.SetField? || c.SetActivation? || c.SetMask? || c.UpdatePolicy?) && c.rc == OK
  }

  lemma GuardedKeepsReset(p: Env, d: Device, d': Device, l: Loading, exempt: bool,
                          k: Key, bytes: seq<byte>, rc: int, patched: Cred)
    requires Reset(d) && Guarded(p, d, d', l, exempt, k, bytes, rc, patched) && rc != OK
    ensures Reset(d')
  {
    LoadKeepsReset(p, d, l);
  }

  lemma FieldKeepsReset(p: Env, d: Device, d': Device, k: Key, src: seq<byte>, rc: int, l: Loading)
    requires Reset(d) && IsField(k) && SetFieldSpec(p, d, d', k, src, rc, l) && rc != OK
    ensures Reset(d')
  {
    if |src| == Size(k) {
      var patched := l.mid.cred.(fields := l.mid.cred.fields.Put(k, Field(src, true)));
      GuardedKeepsReset(p, d, d', l, false, k, src, rc, patched);
    }
  }

  lemma ActivationKeepsReset(p: Env, d: Device, d': Device, mode: Option<Activation>, caps: Caps, rc: int, l: Loading)
    requires Reset(d) && SetActivationSpec(p, d, d', mode, caps, rc, l) && rc != OK
    ensures Reset(d')
  {
    if mode.Some? && Supported(mode.value, caps) {
      GuardedKeepsReset(p, d, d', l, false, Njm, [Wire(mode.value)], rc, l.mid.cred.(njm := mode.value));
    }
  }

  lemma MaskKeepsReset(p: Env, d: Device, d': Device, mask: Option<Words>, rc: int, l: Loading)
    requires Reset(d) && SetMaskSpec(p, d, d', mask, rc, l) && rc != OK
    ensures Reset(d')
  {
    var words := if mask.Some? then mask.value else ZERO_MASK;
    if mask.None? || Selects(words) {
      var patched := l.mid.cred.(mask := words, maskSet := mask.Some?);
      GuardedKeepsReset(p, d, d', l, false, ChMask, BytesOf(words), rc, patched);
    }
  }

  lemma PolicyKeepsReset(p: Env, d: Device, d': Device, auto: int, interval: int, attempts: int, rc: int, l: Loading)
    requires Reset(d) && UpdatePolicySpec(p, d, d', auto, interval, attempts, rc, l) && rc != OK
    ensures Reset(d')
  {
    if PolicyArguments(auto, interval, attempts) {
      var v := NewPolicy(l.mid.cred, auto, interval, attempts);
      var patched := l.mid.cred.(autoJoin := v[0] != 0, interval := v[1], attempts := v[2]);
      GuardedKeepsReset(p, d, d', l, true, JoinPolicy, v, rc, patched);
    }
  }

  lemma LookupKeepsReset(p: Env, d: Device, d': Device, rc: int, read: Event)
    requires Reset(d) && GetRegionSpec(p, d, d', rc, read)
    ensures Reset(d')
  {
    if !d.started {
      StepKeepsUnset(p, d.settings, read, d'.settings);
    }
  }

  lemma RegionWriteKeepsReset(p: Env, d: Device, s': State, region: byte, rc: int)
    requires Reset(d) && WriteSpec(p, d.settings, s', Region, [region], rc, rc != OK)
    ensures Unset(s')
  {
    StepKeepsUnset(p, d.settings, Write(Region, [region], rc, rc != OK), s');
  }

  lemma SetRegionKeepsReset(p: Env, d: Device, d': Device, region: byte, rc: int)
    requires Reset(d) && SetRegionSpec(p, d, d', region, rc)
    ensures Reset(d')
  {
    if region <= REGION_RU_864 && !d.started {
      RegionWriteKeepsReset(p, d, d'.settings, region, rc);
    }
  }

  lemma InitKeepsReset(p: Env, d: Device, d': Device, region: byte, saved: int, backendRc: int, rc: int)
    requires Reset(d) && InitSpec(p, d, d', region, saved, backendRc, rc)
    ensures Reset(d')
  {
    if region <= REGION_RU_864 && !d.started {
      RegionWriteKeepsReset(p, d, d'.settings, region, saved);
    }
  }

  lemma BuildKeepsReset(p: Env, d: Device, d': Device, caps: Caps, rc: int, config: Config,
                        regionRc: int, read: Event, located: Device, l: Loading)
    requires Reset(d) && BuildSpec(p, d, d', caps, rc, config, regionRc, read, located, l)
    ensures Reset(d') && (rc == OK ==> d'.cred.loaded)
  {
    LookupKeepsReset(p, d, located, regionRc, read);
    if regionRc == OK {
      LoadKeepsReset(p, located, l);
    }
  }

  lemma ClearKeepsReset(p: Env, d: Device, d': Device, rc: int, failed: set<Name>)
    requires Reset(d) && ClearAllSpec(d, d', rc, failed)
    ensures Reset(d')
  {
    if !d.cred.joinActive {
      StepKeepsUnset(p, d.settings, Clear(rc, failed), d'.settings);
    }
  }

  lemma ClearResets(d: Device, d': Device, failed: set<Name>)
    requires Total(d.settings.slots) && ClearAllSpec(d, d', OK, failed)
    ensures Reset(d')
  {
  }

  /** Every call but a setter that succeeds leaves a reset device reset. */
  lemma CallKeepsReset(p: Env, caps: Caps, d: Device, c: Call, d': Device)
    requires Reset(d) && Perform(p, caps, d, c, d') && !SucceedingSetter(c)
    ensures Reset(d')
  {
    match c
    case SetField(k, src, rc, l) => FieldKeepsReset(p, d, d', k, src, rc, l);
    case SetActivation(mode, rc, l) => ActivationKeepsReset(p, d, d', mode, caps, rc, l);
    case SetMask(mask, rc, l) => MaskKeepsReset(p, d, d', mask, rc, l);
    case UpdatePolicy(auto, interval, attempts, rc, l) => PolicyKeepsReset(p, d, d', auto, interval, attempts, rc, l);
    case Getter(l) => LoadKeepsReset(p, d, l);
    case GetRegion(rc, read) => LookupKeepsReset(p, d, d', rc, read);
    case SetRegion(region, rc) => SetRegionKeepsReset(p, d, d', region, rc);
    case Init(region, saved, backendRc, rc) => InitKeepsReset(p, d, d', region, saved, backendRc, rc);
    case Build(rc, config, regionRc, read, located, l) =>
      BuildKeepsReset(p, d, d', caps, rc, config, regionRc, read, located, l);
    case ClearAll(rc, failed) => ClearKeepsReset(p, d, d', rc, failed);
    case Shared(e) => StepKeepsUnset(p, d.settings, e, d'.settings);
    case JoinActive(_) =>
    case RebootAll => StepKeepsUnset(p, d.settings, Reboot, d'.settings);
  }

  lemma {:induction false} RunKeepsReset(p: Env, caps: Caps, d: Device, run: seq<CallTransition>)
    requires Reset(d) && CallRun(p, caps, d, run) && forall t | t in run :: !SucceedingSetter(t.call)
    ensures Reset(EndOf(d, run))
    decreases |run|
  {
    if run != [] {
      CallKeepsReset(p, caps, d, run[0].call, run[0].device);
      RunKeepsReset(p, caps, run[0].device, run[1..]);
    }
  }

  // ----- The configuration -----

  lemma DefaultsMakeFactoryConfig(v: map<Key, Outcome>, region: byte, caps: Caps)
    requires Loads(v) && forall k: Key :: k in v && v[k] == Value(Default(k), false)
    ensures StoredConfig(v, region, caps) == FACTORY_CONFIG
  {
    assert Default(Njm) == [1] && Default(JoinPolicy)[1] == JOIN_INTERVAL_DEFAULT;
    assert Default(DevEui) == Zeros(8) && Default(JoinEui) == Zeros(8) && Default(AppKey) == Zeros(16);
  }

  lemma ResetBuild(p: Env, caps: Caps, d: Device, build: Call, d': Device)
    requires Reset(d) && build.Build? && build.rc == OK && Perform(p, caps, d, build, d')
    ensures build.config == FACTORY_CONFIG
  {
    BuildKeepsReset(p, d, d', caps, OK, build.config, build.regionRc, build.read, build.located, build.l);
    ConfigOfMatch(DefaultView(), d'.cred, d'.region, caps);
    DefaultsMakeFactoryConfig(DefaultView(), d'.region, caps);
  }

  /**
   * No credential survives a reset: from any state, after one clear that returns success, every build gives the
   * factory configuration until a setter of a credential succeeds: across reboots, restarts in any region, flash
   * failures, further clears that fail, and writes of other settings.
   */
  lemma ResetConfig(p: Env, caps: Caps, d: Device, clear: CallTransition, run: seq<CallTransition>,
                    build: Call, d': Device)
    requires clear.call.ClearAll? && clear.call.rc == OK && Perform(p, caps, d, clear.call, clear.device)
    requires CallRun(p, caps, clear.device, run) && forall t | t in run :: !SucceedingSetter(t.call)
    requires build.Build? && build.rc == OK && Perform(p, caps, EndOf(clear.device, run), build, d')
    ensures build.config == FACTORY_CONFIG
  {
    ClearResets(d, clear.device, clear.call.failed);
    RunKeepsReset(p, caps, clear.device, run);
    ResetBuild(p, caps, EndOf(clear.device, run), build, d');
  }
}
