/** What a caller sees of the credential setters: when they are accepted, and where their values turn up. */
module SetterEffects {
  import opened Options
  import opened Errors
  import opened Bytes
  import opened ChannelMask
  import opened Settings
  import opened SettingsRuns
  import opened Credentials
  import opened CredentialRuns
  import opened RegionRuns

  // ----- When a setter is accepted -----

  lemma GuardedOutcome(p: Env, d: Device, d': Device, l: Loading, exempt: bool,
                       k: Key, bytes: seq<byte>, rc: int, patched: Cred)
    requires Guarded(p, d, d', l, exempt, k, bytes, rc, patched) && l.rc == OK && !l.faulted
    ensures d.cred.joinActive && !exempt ==> rc == ERR_BUSY && d' == l.mid
    ensures !d.cred.joinActive || exempt ==> (rc == OK <==> |bytes| == Size(k) && ValidValue(k, bytes))
    ensures rc == OK ==> d'.cred == patched
    ensures rc != OK ==> d'.settings == l.mid.settings && d'.cred == l.mid.cred
  {
    EnsureKeepsFlag(p, d, l);
  }

  lemma EnsureKeepsFlag(p: Env, d: Device, l: Loading)
    requires EnsureLoaded(p, d, l)
    ensures l.mid.cred.joinActive == d.cred.joinActive
  {
  }

  /** A byte-array credential is accepted exactly in its size, and refused as busy exactly while a join runs. */
  lemma FieldAcceptedIff(p: Env, d: Device, d': Device, k: Key, src: seq<byte>, rc: int, l: Loading)
    requires IsField(k) && SetFieldSpec(p, d, d', k, src, rc, l) && l.rc == OK && !l.faulted
    ensures var size := if k == DevAddr then 4 else if k == DevEui || k == JoinEui then 8 else 16;
            rc == if |src| != size then ERR_INVALID else if d.cred.joinActive then ERR_BUSY else OK
    ensures rc == OK ==> d'.cred == l.mid.cred.(fields := d'.cred.fields)
    ensures rc == OK ==> d'.cred.fields.Put(k, NO_FIELD) == l.mid.cred.fields.Put(k, NO_FIELD)
  {
    if |src| == Size(k) {
      var patched := l.mid.cred.(fields := l.mid.cred.fields.Put(k, Field(src, true)));
      GuardedOutcome(p, d, d', l, false, k, src, rc, patched);
    }
  }

  /** A mode is accepted exactly if it is one of the two and the device has its capability. */
  lemma ActivationAcceptedIff(p: Env, d: Device, d': Device, mode: Option<Activation>, caps: Caps, rc: int, l: Loading)
    requires SetActivationSpec(p, d, d', mode, caps, rc, l) && l.rc == OK && !l.faulted
    ensures rc == (if mode == None then ERR_INVALID
                   else if (mode == Some(Otaa) && !caps.otaa) || (mode == Some(Abp) && !caps.abp) then ERR_NOT_SUPPORTED
                   else if d.cred.joinActive then ERR_BUSY else OK)
    ensures rc == OK ==> d'.cred.njm == mode.value
  {
    if mode.Some? && Supported(mode.value, caps) {
      GuardedOutcome(p, d, d', l, false, Njm, [Wire(mode.value)], rc, l.mid.cred.(njm := mode.value));
    }
  }

  /** The policy is accepted exactly for these arguments, also while a join runs; what is to be kept is kept. */
  lemma PolicyAcceptedIff(p: Env, d: Device, d': Device, auto: int, interval: int, attempts: int, rc: int, l: Loading)
    requires Synced(p, d) && UpdatePolicySpec(p, d, d', auto, interval, attempts, rc, l) && l.rc == OK && !l.faulted
    ensures var fits := -1 <= auto <= 1 && (interval == -1 || 7 <= interval <= 255) && -1 <= attempts <= 255;
            rc == (if fits then OK else ERR_INVALID) && (!fits ==> d' == d)
    ensures rc == OK ==>
              && l.mid.cred.loaded
              && d'.cred.autoJoin == (if auto == -1 then l.mid.cred.autoJoin else auto == 1)
              && d'.cred.interval == (if interval == -1 then l.mid.cred.interval else interval)
              && d'.cred.attempts == (if attempts == -1 then l.mid.cred.attempts else attempts)
  {
    if PolicyArguments(auto, interval, attempts) {
      LoadKeepsSync(p, d, l);
      PolicyOfMatch(p, l.mid.settings.store, l.mid.cred);
      PolicyWritten(p, d, d', auto, interval, attempts, rc, l);
    }
  }

  lemma PolicyWritten(p: Env, d: Device, d': Device, auto: int, interval: int, attempts: int, rc: int, l: Loading)
    requires UpdatePolicySpec(p, d, d', auto, interval, attempts, rc, l) && l.rc == OK && !l.faulted
    requires PolicyArguments(auto, interval, attempts) && l.mid.cred.interval >= 7
    ensures rc == OK
    ensures d'.cred.autoJoin == (if auto == -1 then l.mid.cred.autoJoin else auto == 1)
    ensures d'.cred.interval == (if interval == -1 then l.mid.cred.interval else interval)
    ensures d'.cred.attempts == (if attempts == -1 then l.mid.cred.attempts else attempts)
  {
    var v := NewPolicy(l.mid.cred, auto, interval, attempts);
    assert ValidValue(JoinPolicy, v);
    GuardedOutcome(p, d, d', l, true, JoinPolicy, v, rc,
                   l.mid.cred.(autoJoin := v[0] != 0, interval := v[1], attempts := v[2]));
  }

  /** In flash as well: each byte of the stored policy is the argument, or what it was if it is to be kept. */
  lemma PolicyKeepsBytes(p: Env, d: Device, d': Device, auto: int, interval: int, attempts: int, l: Loading)
    requires Synced(p, d) && UpdatePolicySpec(p, d, d', auto, interval, attempts, OK, l)
    ensures var before, after := ViewOf(p, d.settings.store), ViewOf(p, d'.settings.store);
            && before[JoinPolicy].Value? && |before[JoinPolicy].value| == 3
            && after == before[JoinPolicy := after[JoinPolicy]]
            && after[JoinPolicy].Value? && after[JoinPolicy].found && |after[JoinPolicy].value| == 3
            && var was, now := before[JoinPolicy].value, after[JoinPolicy].value;
               && now[0] == (if auto == -1 then was[0] else auto)
               && now[1] == (if interval == -1 then was[1] else interval)
               && now[2] == (if attempts == -1 then was[2] else attempts)
  {
    LoadKeepsSync(p, d, l);
    var v := NewPolicy(l.mid.cred, auto, interval, attempts);
    LoadedIsNotSplit(JoinPolicy);
    GuardedAdvances(p, d, d', l, true, JoinPolicy, v, OK,
                    l.mid.cred.(autoJoin := v[0] != 0, interval := v[1], attempts := v[2]));
    PolicyOfMatch(p, d.settings.store, l.mid.cred);
  }

  lemma PolicyOfMatch(p: Env, store: Store, cred: Cred)
    requires CredMatches(ViewOf(p, store), cred)
    ensures var o := ViewOf(p, store)[JoinPolicy];
            && o.Value? && |o.value| == 3 && cred.interval >= 7
            && o.value == [if cred.autoJoin then 1 else 0, cred.interval, cred.attempts]
  {
    PolicyInStruct(ViewOf(p, store), cred);
    ViewAt(p, store, JoinPolicy);
    var o := Resolve(p, store, JoinPolicy);
    PolicyBytes(p, store, o.value, o.found);
    PolicyFits(o.value, cred);
  }

  lemma PolicyFits(value: seq<byte>, cred: Cred)
    requires |value| == 3 && value[0] <= 1
    requires cred.autoJoin == (value[0] != 0) && cred.interval == value[1] && cred.attempts == value[2]
    ensures value == [if cred.autoJoin then 1 else 0, cred.interval, cred.attempts]
  {
  }

  lemma PolicyInStruct(v: map<Key, Outcome>, cred: Cred)
    requires CredMatches(v, cred)
    ensures var o := v[JoinPolicy];
            && o.Value? && |o.value| == 3
            && cred.autoJoin == (o.value[0] != 0) && cred.interval == o.value[1] && cred.attempts == o.value[2]
  {
    assert IsLoaded(JoinPolicy) && Pick(v).policy == FieldOf(v[JoinPolicy]);
  }

  lemma PolicyBytes(p: Env, store: Store, value: seq<byte>, found: bool)
    requires Resolve(p, store, JoinPolicy) == Value(value, found)
    ensures |value| == 3 && value[0] <= 1 && value[1] >= 7
  {
    PolicyIsSound(p, store);
  }

  lemma ViewAt(p: Env, store: Store, k: Key)
    ensures k in ViewOf(p, store) && ViewOf(p, store)[k] == Resolve(p, store, k)
  {
  }

  // ----- Where a value turns up -----

  /** A call that does not set `k` and clears nothing. */
  predicate Spares(c: Call, k: Key) {
    match c
    case SetField(j, _, rc, _) => j != k || rc != OK
    case SetActivation(_, rc, _) => k != Njm || rc != OK
    case SetMask(_, rc, _) => k != ChMask || rc != OK
    case UpdatePolicy(_, _, _, rc, _) => k != JoinPolicy || rc != OK
    case ClearAll(_, _) => false
    case _ => true
  }

  /** A device in step whose key `k` means these bytes. */
  ghost predicate Means(p: Env, d: Device, k: Key, bytes: seq<byte>) {
    Synced(p, d) && Resolve(p, d.settings.store, k) == Value(bytes, true)
  }

  lemma GuardedSpares(p: Env, d: Device, d': Device, l: Loading, exempt: bool,
                      j: Key, b: seq<byte>, rc: int, patched: Cred, k: Key)
    requires Synced(p, d) && Guarded(p, d, d', l, exempt, j, b, rc, patched) && IsLoaded(j) && (j != k || rc != OK)
    ensures Resolve(p, d'.settings.store, k) == Resolve(p, d.settings.store, k)
  {
    LoadedIsNotSplit(j);
    GuardedAdvances(p, d, d', l, exempt, j, b, rc, patched);
    ViewAt(p, d'.settings.store, k);
    ViewAt(p, d.settings.store, k);
    if rc == OK {
      OtherMeaningUnmoved(ViewOf(p, d.settings.store), j, Value(b, true), k);
    }
  }

  lemma SetterSpares(p: Env, caps: Caps, d: Device, c: Call, d': Device, k: Key)
    requires Synced(p, d) && Perform(p, caps, d, c, d') && Spares(c, k)
    requires c.SetField? || c.SetActivation? || c.SetMask? || c.UpdatePolicy?
    ensures Resolve(p, d'.settings.store, k) == Resolve(p, d.settings.store, k)
  {
    match c
    case SetField(j, src, rc, l) =>
      if |src| == Size(j) {
        var patched := l.mid.cred.(fields := l.mid.cred.fields.Put(j, Field(src, true)));
        GuardedSpares(p, d, d', l, false, j, src, rc, patched, k);
      }
    case SetActivation(mode, rc, l) =>
      if mode.Some? && Supported(mode.value, caps) {
        GuardedSpares(p, d, d', l, false, Njm, [Wire(mode.value)], rc, l.mid.cred.(njm := mode.value), k);
      }
    case SetMask(mask, rc, l) =>
      var words := if mask.Some? then mask.value else ZERO_MASK;
      if mask.None? || Selects(words) {
        GuardedSpares(p, d, d', l, false, ChMask, BytesOf(words), rc,
                      l.mid.cred.(mask := words, maskSet := mask.Some?), k);
      }
    case UpdatePolicy(auto, interval, attempts, rc, l) =>
      if PolicyArguments(auto, interval, attempts) {
        var v := NewPolicy(l.mid.cred, auto, interval, attempts);
        GuardedSpares(p, d, d', l, true, JoinPolicy, v, rc,
                      l.mid.cred.(autoJoin := v[0] != 0, interval := v[1], attempts := v[2]), k);
      }
  }

  lemma EventSpares(p: Env, s: State, e: Event, s': State, k: Key)
    requires Coherent(p, s) && Step(p, s, e, s') && !e.Clear? && (e.Write? ==> e.key != k && !IsSplit(e.key))
    ensures Resolve(p, s'.store, k) == Resolve(p, s.store, k)
  {
    StepLeavesAlone(p, s, e, s', k);
  }

  lemma LoadSpares(p: Env, d: Device, l: Loading, k: Key)
    requires Synced(p, d) && EnsureLoaded(p, d, l)
    ensures Resolve(p, l.mid.settings.store, k) == Resolve(p, d.settings.store, k)
  {
    LoadKeepsSync(p, d, l);
    SameViewSameMeaning(p, l.mid.settings.store, d.settings.store, k);
  }

  lemma LookupSpares(p: Env, d: Device, d': Device, rc: int, read: Event, k: Key)
    requires Synced(p, d) && GetRegionSpec(p, d, d', rc, read)
    ensures Resolve(p, d'.settings.store, k) == Resolve(p, d.settings.store, k)
  {
    if !d.started {
      EventSpares(p, d.settings, read, d'.settings, k);
    }
  }

  lemma RegionSpares(p: Env, d: Device, s': State, region: byte, rc: int, k: Key)
    requires Synced(p, d) && WriteSpec(p, d.settings, s', Region, [region], rc, rc != OK) && k != Region
    ensures Resolve(p, s'.store, k) == Resolve(p, d.settings.store, k)
  {
    EventSpares(p, d.settings, Write(Region, [region], rc, rc != OK), s', k);
  }

  lemma SetRegionSpares(p: Env, d: Device, d': Device, region: byte, rc: int, k: Key)
    requires Synced(p, d) && SetRegionSpec(p, d, d', region, rc) && k != Region
    ensures Resolve(p, d'.settings.store, k) == Resolve(p, d.settings.store, k)
  {
    if region <= REGION_RU_864 && !d.started {
      RegionSpares(p, d, d'.settings, region, rc, k);
    }
  }

  lemma InitSpares(p: Env, d: Device, d': Device, region: byte, saved: int, backendRc: int, rc: int, k: Key)
    requires Synced(p, d) && InitSpec(p, d, d', region, saved, backendRc, rc) && k != Region
    ensures Resolve(p, d'.settings.store, k) == Resolve(p, d.settings.store, k)
  {
    if region <= REGION_RU_864 && !d.started {
      RegionSpares(p, d, d'.settings, region, saved, k);
    }
  }

  lemma BuildSpares(p: Env, d: Device, d': Device, caps: Caps, rc: int, config: Config,
                    regionRc: int, read: Event, located: Device, l: Loading, k: Key)
    requires Synced(p, d) && BuildSpec(p, d, d', caps, rc, config, regionRc, read, located, l)
    ensures Resolve(p, d'.settings.store, k) == Resolve(p, d.settings.store, k)
  {
    LookupSpares(p, d, located, regionRc, read, k);
    LookupKeepsSync(p, d, located, regionRc, read);
    if regionRc == OK {
      LoadSpares(p, located, l, k);
    }
  }

  /** A call that does not set a credential leaves what it means alone. */
  lemma CallSpares(p: Env, caps: Caps, d: Device, c: Call, d': Device, k: Key)
    requires Synced(p, d) && Perform(p, caps, d, c, d') && Spares(c, k) && IsLoaded(k)
    ensures Synced(p, d') && Resolve(p, d'.settings.store, k) == Resolve(p, d.settings.store, k)
  {
    CallKeepsSync(p, caps, d, c, d');
    match c
    case Getter(l) => LoadSpares(p, d, l, k);
    case GetRegion(rc, read) => LookupSpares(p, d, d', rc, read, k);
    case SetRegion(region, rc) => SetRegionSpares(p, d, d', region, rc, k);
    case Init(region, saved, backendRc, rc) => InitSpares(p, d, d', region, saved, backendRc, rc, k);
    case Build(rc, config, regionRc, read, located, l) =>
      BuildSpares(p, d, d', caps, rc, config, regionRc, read, located, l, k);
    case Shared(e) => EventSpares(p, d.settings, e, d'.settings, k);
    case JoinActive(_) =>
    case RebootAll =>
    case _ => SetterSpares(p, caps, d, c, d', k);
  }

  lemma {:induction false} RunSpares(p: Env, caps: Caps, d: Device, run: seq<CallTransition>, k: Key)
    requires Synced(p, d) && CallRun(p, caps, d, run) && IsLoaded(k) && forall t | t in run :: Spares(t.call, k)
    ensures Synced(p, EndOf(d, run))
    ensures Resolve(p, EndOf(d, run).settings.store, k) == Resolve(p, d.settings.store, k)
    decreases |run|
  {
    if run != [] {
      CallSpares(p, caps, d, run[0].call, run[0].device, k);
      RunSpares(p, caps, run[0].device, run[1..], k);
    }
  }

  /** A build after any such run, which is then a function of the stored meanings. */
  lemma BuildAfter(p: Env, caps: Caps, d: Device, run: seq<CallTransition>, k: Key, build: Call, d': Device)
      returns (v: map<Key, Outcome>, region: byte)
    requires Synced(p, d) && CallRun(p, caps, d, run) && IsLoaded(k) && forall t | t in run :: Spares(t.call, k)
    requires build.Build? && build.rc == OK && Perform(p, caps, EndOf(d, run), build, d')
    ensures Loads(v) && v[k] == Resolve(p, d.settings.store, k) && build.config == StoredConfig(v, region, caps)
    ensures region == d'.region
  {
    RunSpares(p, caps, d, run, k);
    var e := EndOf(d, run);
    BuildIsStoredConfig(p, caps, e, build, d');
    v, region := ViewOf(p, e.settings.store), SeenRegion(ViewOf(p, e.settings.store), e);
    BuildRegion(p, caps, e, build, d');
  }

  lemma BuildRegion(p: Env, caps: Caps, d: Device, build: Call, d': Device)
    requires Synced(p, d) && build.Build? && build.rc == OK && Perform(p, caps, d, build, d')
    ensures d'.region == SeenRegion(ViewOf(p, d.settings.store), d)
  {
    LookupSeesRegion(p, d, build.located, build.read);
  }

  /** The place of each credential in a configuration of its mode. */
  predicate Shows(keys: Keys, k: Key, src: seq<byte>) {
    && (keys.OtaaKeys? ==>
          && (k == DevEui ==> keys.devEui == src) && (k == JoinEui ==> keys.joinEui == src)
          && (k == AppKey ==> keys.networkKey == src) && (k == GenAppKey ==> keys.applicationKey == src))
    && (keys.AbpKeys? ==>
          && (k == DevAddr ==> keys.devAddr == src) && (k == NwkSKey ==> keys.networkSessionKey == src)
          && (k == AppSKey ==> keys.applicationSessionKey == src))
  }

  /**
   * A byte-array credential that was set is in every configuration built until it is set again or cleared, in its
   * own place, across reboots, flash failures and all other calls.
   */
  lemma FieldIsBuilt(p: Env, caps: Caps, d: Device, done: CallTransition, run: seq<CallTransition>,
                     build: Call, d': Device)
    requires Synced(p, d) && done.call.SetField? && done.call.rc == OK && Perform(p, caps, d, done.call, done.device)
    requires CallRun(p, caps, done.device, run) && forall t | t in run :: Spares(t.call, done.call.key)
    requires build.Build? && build.rc == OK && Perform(p, caps, EndOf(done.device, run), build, d')
    ensures Shows(build.config.keys, done.call.key, done.call.src)
    ensures build.config.keys.OtaaKeys? <==> build.config.activation == Otaa
  {
    var k, src, l := done.call.key, done.call.src, done.call.l;
    SetFieldKeepsSync(p, d, done.device, k, src, OK, l);
    SetterMeans(p, d, done.device, l, false, k, src, l.mid.cred.(fields := l.mid.cred.fields.Put(k, Field(src, true))));
    var v, region := BuildAfter(p, caps, done.device, run, k, build, d');
    ConfigShowsField(v, region, caps, k, src);
  }

  /** Where GenAppKey was never stored, AppKey stands in for it as the application key. */
  lemma AppKeyStandsIn(p: Env, caps: Caps, d: Device, done: CallTransition, run: seq<CallTransition>,
                       build: Call, d': Device)
    requires Synced(p, d) && done.call.SetField? && done.call.key == AppKey && done.call.rc == OK
    requires Perform(p, caps, d, done.call, done.device) && CallRun(p, caps, done.device, run)
    requires forall t | t in run :: Spares(t.call, AppKey) && Spares(t.call, GenAppKey)
    requires Stored(done.device.settings.store, Name(Lorawan, GenAppKey)) == []
    requires Stored(done.device.settings.store, Name(Rzi, GenAppKey)) == []
    requires build.Build? && build.rc == OK && Perform(p, caps, EndOf(done.device, run), build, d')
    ensures build.config.keys.OtaaKeys? ==>
              build.config.keys.networkKey == build.config.keys.applicationKey == done.call.src
  {
    FieldIsBuilt(p, caps, d, done, run, build, d');
    CallKeepsSync(p, caps, d, done.call, done.device);
    var v, region := BuildAfter(p, caps, done.device, run, GenAppKey, build, d');
    assert v[GenAppKey] == Value(Default(GenAppKey), false);
  }

  lemma ConfigShowsField(v: map<Key, Outcome>, region: byte, caps: Caps, k: Key, src: seq<byte>)
    requires Loads(v) && IsField(k) && v[k] == Value(src, true)
    ensures Shows(StoredConfig(v, region, caps).keys, k, src)
    ensures StoredConfig(v, region, caps).keys.OtaaKeys? <==> StoredConfig(v, region, caps).activation == Otaa
  {
  }

  lemma SetterMeans(p: Env, d: Device, d': Device, l: Loading, exempt: bool, k: Key, bytes: seq<byte>, patched: Cred)
    requires Synced(p, d) && Guarded(p, d, d', l, exempt, k, bytes, OK, patched) && IsLoaded(k)
    ensures Resolve(p, d'.settings.store, k) == Value(bytes, true)
  {
    LoadedIsNotSplit(k);
    GuardedAdvances(p, d, d', l, exempt, k, bytes, OK, patched);
    assert ViewOf(p, d'.settings.store)[k] == Value(bytes, true);
  }

  /** The mode that was set is the mode of every configuration until it is set again or cleared. */
  lemma ActivationIsBuilt(p: Env, caps: Caps, d: Device, done: CallTransition, run: seq<CallTransition>,
                          build: Call, d': Device)
    requires Synced(p, d) && done.call.SetActivation? && done.call.rc == OK
    requires Perform(p, caps, d, done.call, done.device)
    requires CallRun(p, caps, done.device, run) && forall t | t in run :: Spares(t.call, Njm)
    requires build.Build? && build.rc == OK && Perform(p, caps, EndOf(done.device, run), build, d')
    ensures done.call.mode == Some(build.config.activation)
  {
    var mode, l := done.call.mode.value, done.call.l;
    SetActivationKeepsSync(p, d, done.device, done.call.mode, caps, OK, l);
    SetterMeans(p, d, done.device, l, false, Njm, [Wire(mode)], l.mid.cred.(njm := mode));
    var v, region := BuildAfter(p, caps, done.device, run, Njm, build, d');
    ConfigShowsMode(v, region, caps, mode);
  }

  lemma ConfigShowsMode(v: map<Key, Outcome>, region: byte, caps: Caps, mode: Activation)
    requires Loads(v) && v[Njm] == Value([Wire(mode)], true)
    ensures StoredConfig(v, region, caps).activation == mode
  {
  }

  /** The mask that was set restricts every configuration on a fixed plan, and no mask restricts none. */
  lemma MaskIsBuilt(p: Env, caps: Caps, d: Device, done: CallTransition, run: seq<CallTransition>,
                    build: Call, d': Device)
    requires Synced(p, d) && done.call.SetMask? && done.call.rc == OK && Perform(p, caps, d, done.call, done.device)
    requires CallRun(p, caps, done.device, run) && forall t | t in run :: Spares(t.call, ChMask)
    requires build.Build? && build.rc == OK && Perform(p, caps, EndOf(done.device, run), build, d')
    ensures var fixed := caps.channel && (d'.region == REGION_US_915 || d'.region == REGION_AU_915);
            && build.config.maskSet == (fixed && done.call.mask.Some?)
            && (build.config.maskSet ==> build.config.mask == done.call.mask.value)
  {
    var mask, l := done.call.mask, done.call.l;
    var words := if mask.Some? then mask.value else ZERO_MASK;
    SetMaskKeepsSync(p, d, done.device, mask, OK, l);
    SetterMeans(p, d, done.device, l, false, ChMask, BytesOf(words), l.mid.cred.(mask := words, maskSet := mask.Some?));
    var v, region := BuildAfter(p, caps, done.device, run, ChMask, build, d');
    WordsOfBytesOf(words);
    SelectsUnlessZero(words);
  }

  /** The interval that was set is the retry interval of every configuration; one that was kept stays. */
  lemma IntervalIsBuilt(p: Env, caps: Caps, d: Device, done: CallTransition, run: seq<CallTransition>,
                        build: Call, d': Device)
    requires Synced(p, d) && done.call.UpdatePolicy? && done.call.rc == OK
    requires Perform(p, caps, d, done.call, done.device)
    requires CallRun(p, caps, done.device, run) && forall t | t in run :: Spares(t.call, JoinPolicy)
    requires build.Build? && build.rc == OK && Perform(p, caps, EndOf(done.device, run), build, d')
    ensures done.call.interval != -1 ==> build.config.retryInterval == done.call.interval
    ensures done.call.interval == -1 ==>
              var was := Resolve(p, d.settings.store, JoinPolicy);
              was.Value? && |was.value| == 3 && build.config.retryInterval == was.value[1]
  {
    var c := done.call;
    PolicyKeepsSync(p, d, done.device, c.auto, c.interval, c.attempts, OK, c.l);
    PolicyKeepsBytes(p, d, done.device, c.auto, c.interval, c.attempts, c.l);
    ViewAt(p, done.device.settings.store, JoinPolicy);
    ViewAt(p, d.settings.store, JoinPolicy);
    var v, region := BuildAfter(p, caps, done.device, run, JoinPolicy, build, d');
  }

  // ----- The region -----

  /** A region is accepted exactly before the start and within the enumeration. */
  lemma RegionAcceptedIff(p: Env, d: Device, d': Device, region: byte, rc: int)
    requires Total(d.settings.slots) && SetRegionSpec(p, d, d', region, rc)
    ensures rc == OK ==> region <= REGION_RU_864 && !d.started && d'.region == region
    ensures region > REGION_RU_864 ==> rc == ERR_INVALID
    ensures region <= REGION_RU_864 && d.started ==> rc == ERR_INVALID_STATE
    ensures rc != OK ==> d' == d
  {
  }

  /** Neither clears nor stores a region. */
  predicate SparesRegion(d: Device, c: Call) {
    && !c.ClearAll? && (c.SetRegion? ==> c.rc != OK)
    && (c.Init? ==> c.saved != OK || d.started || c.region > REGION_RU_864)
  }

  ghost predicate RegionSpared(d: Device, run: seq<CallTransition>)
    decreases |run|
  {
    run != [] ==> SparesRegion(d, run[0].call) && RegionSpared(run[0].device, run[1..])
  }

  lemma RegionWriteSpares(p: Env, d: Device, c: Call, d': Device)
    requires Synced(p, d) && SparesRegion(d, c) && (c.SetRegion? || c.Init?)
    requires c.SetRegion? ==> SetRegionSpec(p, d, d', c.region, c.rc)
    requires c.Init? ==> InitSpec(p, d, d', c.region, c.saved, c.backendRc, c.rc)
    ensures Resolve(p, d'.settings.store, Region) == Resolve(p, d.settings.store, Region)
  {
  }

  lemma CallKeepsRegion(p: Env, caps: Caps, d: Device, c: Call, d': Device)
    requires Synced(p, d) && RegionFresh(p, d) && Perform(p, caps, d, c, d') && SparesRegion(d, c)
    ensures Synced(p, d') && RegionFresh(p, d')
    ensures Resolve(p, d'.settings.store, Region) == Resolve(p, d.settings.store, Region)
  {
    CallKeepsSync(p, caps, d, c, d');
    RegionStaysFresh(p, caps, d, c, d');
    match c
    case Getter(l) => LoadSpares(p, d, l, Region);
    case GetRegion(rc, read) => LookupSpares(p, d, d', rc, read, Region);
    case SetRegion(_, _) => RegionWriteSpares(p, d, c, d');
    case Init(_, _, _, _) => RegionWriteSpares(p, d, c, d');
    case Build(rc, config, regionRc, read, located, l) =>
      BuildSpares(p, d, d', caps, rc, config, regionRc, read, located, l, Region);
    case Shared(e) => EventSpares(p, d.settings, e, d'.settings, Region);
    case JoinActive(_) =>
    case RebootAll =>
    case _ => SetterSpares(p, caps, d, c, d', Region);
  }

  lemma {:induction false} RunKeepsRegion(p: Env, caps: Caps, d: Device, run: seq<CallTransition>)
    requires Synced(p, d) && RegionFresh(p, d) && CallRun(p, caps, d, run) && RegionSpared(d, run)
    ensures Synced(p, EndOf(d, run)) && RegionFresh(p, EndOf(d, run))
    ensures Resolve(p, EndOf(d, run).settings.store, Region) == Resolve(p, d.settings.store, Region)
    decreases |run|
  {
    if run != [] {
      CallKeepsRegion(p, caps, d, run[0].call, run[0].device);
      RunKeepsRegion(p, caps, run[0].device, run[1..]);
    }
  }

  /** A stored region, by a setter or by the initialisation, is the region its key means. */
  lemma RegionIsStored(p: Env, caps: Caps, d: Device, c: Call, d': Device, region: byte)
    requires Synced(p, d) && RegionFresh(p, d) && Perform(p, caps, d, c, d')
    requires (c.SetRegion? && c.region == region && c.rc == OK)
             || (c.Init? && c.region == region && c.saved == OK && !d.started && region <= REGION_RU_864)
    ensures Synced(p, d') && RegionFresh(p, d') && Resolve(p, d'.settings.store, Region) == Value([region], true)
  {
    CallKeepsSync(p, caps, d, c, d');
    RegionStaysFresh(p, caps, d, c, d');
    WriteAdvances(p, d.settings, Region, [region], OK, false, d'.settings);
    ViewAt(p, d'.settings.store, Region);
  }

  /** The region that was stored is the one every configuration is built for, started or not, across reboots. */
  lemma RegionIsBuilt(p: Env, caps: Caps, d: Device, done: CallTransition, region: byte, run: seq<CallTransition>,
                      build: Call, d': Device)
    requires Synced(p, d) && RegionFresh(p, d) && Perform(p, caps, d, done.call, done.device)
    requires (done.call.SetRegion? && done.call.region == region && done.call.rc == OK)
             || (done.call.Init? && done.call.region == region && done.call.saved == OK && !d.started
                 && region <= REGION_RU_864)
    requires CallRun(p, caps, done.device, run) && RegionSpared(done.device, run)
    requires build.Build? && build.rc == OK && Perform(p, caps, EndOf(done.device, run), build, d')
    ensures d'.region == region
  {
    RegionIsStored(p, caps, d, done.call, done.device, region);
    RunKeepsRegion(p, caps, done.device, run);
    var e := EndOf(done.device, run);
    BuildRegion(p, caps, e, build, d');
    ViewAt(p, e.settings.store, Region);
  }
}
