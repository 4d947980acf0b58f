/** When the region a started service runs with differs from the stored one, and what that does across a reboot. */
module RegionRuns {
  import opened Options
  import opened Errors
  import opened Bytes
  import opened ChannelMask
  import opened Settings
  import opened SettingsRuns
  import opened Credentials
  import opened CredentialRuns

  // ----- Keeping the running region fresh -----

  lemma LoadKeepsRegion(p: Env, d: Device, l: Loading)
    requires Synced(p, d) && EnsureLoaded(p, d, l) && RegionFresh(p, d)
    ensures Synced(p, l.mid) && RegionFresh(p, l.mid)
  {
    LoadKeepsSync(p, d, l);
  }

  lemma BuildKeepsRegion(p: Env, caps: Caps, d: Device, c: Call, d': Device)
    requires Synced(p, d) && RegionFresh(p, d) && c.Build? && Perform(p, caps, d, c, d')
    ensures RegionFresh(p, d')
  {
    if c.regionRc == OK {
      if !d.started {
        SettingsKeepSync(p, d, c.read, c.located.settings);
      }
      LoadKeepsRegion(p, c.located, c.l);
    }
  }

  lemma InitKeepsRegion(p: Env, d: Device, d': Device, region: byte, saved: int, backendRc: int, rc: int)
    requires Synced(p, d) && RegionFresh(p, d) && InitSpec(p, d, d', region, saved, backendRc, rc)
    ensures RegionFresh(p, d')
  {
    if d'.started && !d.started {
      WriteAdvances(p, d.settings, Region, [region], saved, saved != OK, d'.settings);
    }
  }

  lemma SharedKeepsRegion(p: Env, d: Device, d': Device, e: Event)
    requires Synced(p, d) && RegionFresh(p, d) && SharedSpec(p, d, d', e)
    ensures RegionFresh(p, d')
  {
    if e.Read? {
      ReadStaysCoherent(p, d.settings, e, d'.settings);
    } else {
      WriteAdvances(p, d.settings, e.key, e.value, e.rc, e.faulted, d'.settings);
    }
  }

  /** Only a full clear on a started service can leave it with a region that is no longer the stored one. */
  lemma RegionStaysFresh(p: Env, caps: Caps, d: Device, c: Call, d': Device)
    requires Synced(p, d) && RegionFresh(p, d) && Perform(p, caps, d, c, d')
    requires c.ClearAll? ==> !d.started || d.cred.joinActive
    ensures RegionFresh(p, d')
  {
    if c.SetField? {
      SetFieldKeepsSync(p, d, d', c.key, c.src, c.rc, c.l);
    } else if c.SetActivation? {
      SetActivationKeepsSync(p, d, d', c.mode, caps, c.rc, c.l);
    } else if c.SetMask? {
      SetMaskKeepsSync(p, d, d', c.mask, c.rc, c.l);
    } else if c.UpdatePolicy? {
      PolicyKeepsSync(p, d, d', c.auto, c.interval, c.attempts, c.rc, c.l);
    } else if c.Build? {
      BuildKeepsRegion(p, caps, d, c, d');
    } else if c.Init? {
      InitKeepsRegion(p, d, d', c.region, c.saved, c.backendRc, c.rc);
    } else if c.Shared? {
      SharedKeepsRegion(p, d, d', c.e);
    } else if c.Getter? {
      LoadKeepsRegion(p, d, c.l);
    }
  }

  lemma FullClear(p: Env, d: Device, d1: Device, failed: set<Name>)
    requires Synced(p, d) && !d.cred.joinActive && ClearAllSpec(d, d1, OK, failed)
    ensures Synced(p, d1) && ViewOf(p, d1.settings.store) == DefaultView()
    ensures d1.started == d.started && d1.region == d.region
  {
    ClearedIsDefault(p, d1.settings.store);
  }

  /** What an accepted selection does, without the patch of the struct. */
  lemma AcceptedMask(p: Env, d: Device, d': Device, words: Words, l: Loading)
    requires SetMaskSpec(p, d, d', Some(words), OK, l)
    ensures Selects(words) && d'.cred.loaded == l.mid.cred.loaded && l.rc == OK
    ensures Guarded(p, d, d', l, false, ChMask, BytesOf(words), OK, l.mid.cred.(mask := words, maskSet := true))
  {
  }

  lemma SelectMask(p: Env, d: Device, d': Device, words: Words, l: Loading)
    requires Synced(p, d) && SetMaskSpec(p, d, d', Some(words), OK, l)
    ensures Synced(p, d') && d'.cred.loaded && Selects(words) && d'.started == d.started && d'.region == d.region
    ensures ViewOf(p, d'.settings.store) == ViewOf(p, d.settings.store)[ChMask := Value(BytesOf(words), true)]
  {
    AcceptedMask(p, d, d', words, l);
    MaskAdvances(p, d, d', words, l, l.mid.cred.(mask := words, maskSet := true));
    SetMaskKeepsSync(p, d, d', Some(words), OK, l);
  }

  lemma MaskAdvances(p: Env, d: Device, d': Device, words: Words, l: Loading, patched: Cred)
    requires Synced(p, d) && Guarded(p, d, d', l, false, ChMask, BytesOf(words), OK, patched) && l.rc == OK
    ensures d'.started == d.started && d'.region == d.region && l.mid.cred.loaded
    ensures ViewOf(p, d'.settings.store) == ViewOf(p, d.settings.store)[ChMask := Value(BytesOf(words), true)]
  {
    assert !IsSplit(ChMask);
    GuardedAdvances(p, d, d', l, false, ChMask, BytesOf(words), OK, patched);
    LoadKeepsSync(p, d, l);
  }

  lemma UnsetRegionIsStale(d: Device, caps: Caps, words: Words, v: map<Key, Outcome>)
    requires d.started && FixedPlan(d.region) && caps.channel && Selects(words)
    requires Loads(v) && v[ChMask] == Value(BytesOf(words), true) && v[Region] == Value(Default(Region), false)
    ensures MaskMeetsStaleRegion(v, d, caps)
  {
    WordsOfBytesOf(words);
    assert Default(Region)[0] == REGION_EU_868;
  }

  /** A selected mask over default settings, while the service runs with a fixed-plan region. */
  lemma DefaultRegionIsStale(d: Device, caps: Caps, words: Words, v: map<Key, Outcome>)
    requires d.started && FixedPlan(d.region) && caps.channel && Selects(words)
    requires Loads(v) && v == DefaultView()[ChMask := Value(BytesOf(words), true)]
    ensures MaskMeetsStaleRegion(v, d, caps)
  {
    UnsetRegionIsStale(d, caps, words, v);
  }

  /**
   * The failing case is reachable: a full clear of a started fixed-plan service followed by a channel selection
   * leaves a stored mask with a stale region.
   */
  lemma ClearWhileStartedGoesStale(p: Env, caps: Caps, d: Device, d1: Device, d2: Device,
                                   failed: set<Name>, words: Words, l: Loading)
    requires Synced(p, d) && d.started && FixedPlan(d.region) && caps.channel && !d.cred.joinActive
    requires ClearAllSpec(d, d1, OK, failed) && SetMaskSpec(p, d1, d2, Some(words), OK, l)
    ensures Synced(p, d2) && Loads(ViewOf(p, d2.settings.store))
    ensures MaskMeetsStaleRegion(ViewOf(p, d2.settings.store), d2, caps)
  {
    FullClear(p, d, d1, failed);
    SelectMask(p, d1, d2, words, l);
    DefaultRegionIsStale(d2, caps, words, ViewOf(p, d2.settings.store));
  }

  /** A fresh region is never stale for a stored mask. */
  lemma FreshIsNotStale(p: Env, caps: Caps, d: Device)
    requires RegionFresh(p, d) && Loads(ViewOf(p, d.settings.store))
    ensures !MaskMeetsStaleRegion(ViewOf(p, d.settings.store), d, caps)
  {
    ResolvedIsValid(p, d.settings.store, Region);
  }

  /** No clear in the run succeeds while the service is started. */
  ghost predicate NoClearWhileStarted(d: Device, run: seq<CallTransition>)
    decreases |run|
  {
    run != [] ==>
      && (run[0].call.ClearAll? && run[0].call.rc == OK ==> !d.started)
      && NoClearWhileStarted(run[0].device, run[1..])
  }

  lemma StepKeepsFresh(p: Env, caps: Caps, d: Device, c: Call, d': Device, synced: bool)
    requires Perform(p, caps, d, c, d') && (synced ==> Synced(p, d) && RegionFresh(p, d))
    requires c.ClearAll? && c.rc == OK ==> !d.started
    requires NextSynced(d, c, synced)
    ensures RegionFresh(p, d')
  {
    if synced {
      RegionStaysFresh(p, caps, d, c, d');
    }
  }

  lemma {:induction false} RunKeepsFresh(p: Env, caps: Caps, d: Device, run: seq<CallTransition>, synced: bool)
    requires CallRun(p, caps, d, run) && InSync(synced, d, run) && NoClearWhileStarted(d, run)
    requires synced ==> Synced(p, d) && RegionFresh(p, d)
    ensures RegionFresh(p, EndOf(d, run))
    decreases |run|
  {
    if run != [] {
      var c, d' := run[0].call, run[0].device;
      var next := NextSynced(d, c, synced);
      if next {
        StepKeepsFresh(p, caps, d, c, d', synced);
        OneCallKeepsSync(p, caps, d, c, d', synced);
      }
      RunKeepsFresh(p, caps, d', run[1..], next);
    }
  }

  lemma OneCallKeepsSync(p: Env, caps: Caps, d: Device, c: Call, d': Device, synced: bool)
    requires Perform(p, caps, d, c, d') && (synced ==> Synced(p, d))
    requires NextSynced(d, c, synced)
    ensures Synced(p, d')
  {
    if synced {
      CallKeepsSync(p, caps, d, c, d');
    }
  }

  /**
   * What a caller can rely on: after any run from boot in which no clear succeeds while the service is started,
   * and which is in step at its end, the configurations built just before and after a reboot are equal.
   */
  lemma ConfigSurvivesUnlessCleared(p: Env, caps: Caps, boot: Device, run: seq<CallTransition>,
                                    before: CallTransition, reboot: CallTransition, after: CallTransition)
    requires Synced(p, boot) && !boot.started && CallRun(p, caps, boot, run) && InSync(true, boot, run)
    requires NoClearWhileStarted(boot, run)
    requires before.call.Build? && before.call.rc == OK
    requires Perform(p, caps, EndOf(boot, run), before.call, before.device)
    requires reboot.call.RebootAll? && Perform(p, caps, before.device, reboot.call, reboot.device)
    requires after.call.Build? && after.call.rc == OK && Perform(p, caps, reboot.device, after.call, after.device)
    ensures before.call.config == after.call.config
  {
    ConfigSurvivesReboot(p, caps, boot, run, before, reboot, after);
    RunKeepsFresh(p, caps, boot, run, true);
    FreshIsNotStale(p, caps, EndOf(boot, run));
  }

  // ----- The failing case, from empty flash -----

  /** A device with nothing in flash, before its service is started. */
  ghost function Factory(): Device {
    Device(State(map[], Unloaded()), NO_CRED, false, REGION_EU_868)
  }

  lemma ReadSucceeds(p: Env, s: State, k: Key) returns (t: Transition)
    requires Coherent(p, s) && Resolve(p, s.store, k).Value?
    ensures Link(p, s, t, k) && t.event.rc == OK
  {
    var o := Resolve(p, s.store, k);
    ResolvedIsValid(p, s.store, k);
    if s.slots[k].loaded {
      t := Transition(Read(k, Size(k), OK, s.slots[k].value, s.slots[k].present, false), s);
    } else {
      var migrates := o.found && Stored(s.store, Name(Lorawan, k)) == [];
      var store' := if migrates then Saved(p, s.store, k, o.value) else s.store;
      t := Transition(Read(k, Size(k), OK, o.value, o.found, false),
                      State(store', s.slots[k := Slot(true, o.found, o.value)]));
    }
  }

  /** Whenever every credential has a meaning, a load without flash failures succeeds. */
  lemma LoadSucceeds(p: Env, d: Device) returns (l: Loading)
    requires Coherent(p, d.settings) && Loads(ViewOf(p, d.settings.store)) && !d.cred.loaded
    ensures EnsureLoaded(p, d, l) && l.rc == OK && !l.faulted
  {
    var trail, replies := [], NO_REPLIES;
    var v := ViewOf(p, d.settings.store);
    for i := 0 to |LOAD_KEYS|
      invariant |trail| == i && Chain(p, d.settings, trail) && ChainRc(trail) == OK
      invariant Coherent(p, ChainEnd(d.settings, trail)) && ViewOf(p, ChainEnd(d.settings, trail).store) == v
      invariant Collected(trail, replies) && SizedUpTo(replies, i)
    {
      var s, k := ChainEnd(d.settings, trail), LOAD_KEYS[i];
      LoadPositions(i);
      assert v[k].Value?;
      var t := ReadSucceeds(p, s, k);
      LinkReports(p, s, t, k);
      ReadStaysTotal(p, s, t.event, t.state);
      ExtendChain(p, d.settings, trail, t);
      ExtendCollected(trail, replies, t);
      ExtendSized(replies, i, Field(t.event.value, t.event.found));
      replies := replies.Put(k, Field(t.event.value, t.event.found));
      trail := trail + [t];
    }
    var cred := Assemble(replies).(joinActive := d.cred.joinActive);
    l := Loading(OK, trail, replies, d.(settings := ChainEnd(d.settings, trail), cred := cred), false);
  }

  lemma SizedMeaningsLoad(v: map<Key, Outcome>)
    requires forall k: Key :: k in v && v[k].Value? && |v[k].value| == Size(k)
    ensures Loads(v)
  {
    assert Size(Njm) == 1 && Size(JoinPolicy) == 3 && Size(ChMask) == 12;
  }

  lemma DefaultsLoad()
    ensures Loads(DefaultView())
  {
    SizedMeaningsLoad(DefaultView());
  }

  lemma InitOnFixedPlan(p: Env, caps: Caps) returns (t: CallTransition)
    ensures Perform(p, caps, Factory(), t.call, t.device)
    ensures t.call == Init(REGION_US_915, OK, OK, OK) && t.device.started && t.device.region == REGION_US_915
    ensures Synced(p, t.device) && !t.device.cred.joinActive
  {
    var s := State(Saved(p, map[], Region, [REGION_US_915]), Unloaded()[Region := Slot(true, true, [REGION_US_915])]);
    t := CallTransition(Init(REGION_US_915, OK, OK, OK), Device(s, NO_CRED, true, REGION_US_915));
    CallKeepsSync(p, caps, Factory(), t.call, t.device);
  }

  lemma ClearWhileStarted(p: Env, caps: Caps, d: Device) returns (t: CallTransition)
    requires Synced(p, d) && d.started && !d.cred.joinActive
    ensures t.call == ClearAll(OK, {}) && Perform(p, caps, d, t.call, t.device)
    ensures t.device == d.(settings := State(map[], Unloaded()), cred := NO_CRED)
  {
    t := CallTransition(ClearAll(OK, {}), d.(settings := State(map[], Unloaded()), cred := NO_CRED));
  }

  lemma WriteSucceeds(p: Env, s: State, k: Key, value: seq<byte>) returns (s': State)
    requires Total(s.slots) && |value| == Size(k) && ValidValue(k, value)
    ensures WriteSpec(p, s, s', k, value, OK, false)
  {
    var store := if SkipsSave(s, k, value) then s.store else Saved(p, s.store, k, value);
    s' := State(store, s.slots[k := Slot(true, true, value)]);
  }

  lemma MaskIsValid(words: Words)
    requires WithinPlan(words)
    ensures ValidValue(ChMask, BytesOf(words))
  {
    WordsOfBytesOf(words);
  }

  /** Whenever the load succeeds and no join runs, a selection can be stored. */
  lemma SelectAfterLoad(p: Env, d: Device, l: Loading, words: Words) returns (d': Device)
    requires EnsureLoaded(p, d, l) && l.rc == OK && !l.faulted && !l.mid.cred.joinActive
    requires Total(l.mid.settings.slots) && Selects(words)
    ensures SetMaskSpec(p, d, d', Some(words), OK, l)
  {
    MaskIsValid(words);
    var s := WriteSucceeds(p, l.mid.settings, ChMask, BytesOf(words));
    d' := l.mid.(settings := s, cred := l.mid.cred.(mask := words, maskSet := true));
  }

  lemma LoadFromEmpty(p: Env, d: Device) returns (l: Loading)
    requires d.settings == State(map[], Unloaded()) && d.cred == NO_CRED
    ensures EnsureLoaded(p, d, l) && l.rc == OK && !l.faulted && !l.mid.cred.joinActive
    ensures Total(l.mid.settings.slots)
  {
    ClearedIsDefault(p, map[]);
    DefaultsLoad();
    l := LoadSucceeds(p, d);
    LoadKeepsTotal(p, d, l);
  }

  lemma SelectSucceeds(p: Env, caps: Caps, d: Device, words: Words) returns (t: CallTransition)
    requires d.settings == State(map[], Unloaded()) && d.cred == NO_CRED && Selects(words)
    ensures t.call.SetMask? && t.call.mask == Some(words) && t.call.rc == OK
    ensures Perform(p, caps, d, t.call, t.device)
  {
    var l := LoadFromEmpty(p, d);
    var d' := SelectAfterLoad(p, d, l, words);
    t := CallTransition(SetMask(Some(words), OK, l), d');
  }

  lemma BuildWhileStarted(p: Env, caps: Caps, d: Device) returns (t: CallTransition)
    requires Total(d.settings.slots) && d.started && d.cred.loaded
    ensures t.call.Build? && t.call.rc == OK && t.device == d && Perform(p, caps, d, t.call, t.device)
  {
    var l := Loading(OK, [], NO_REPLIES, d, false);
    t := CallTransition(Build(OK, ConfigFrom(d.cred, d.region, caps), OK, Reboot, d, l), d);
  }

  lemma LocateRegion(p: Env, d: Device) returns (read: Event, located: Device)
    requires Coherent(p, d.settings) && !d.started && ViewOf(p, d.settings.store)[Region].Value?
    ensures GetRegionSpec(p, d, located, OK, read) && located.cred == d.cred
    ensures Coherent(p, located.settings) && ViewOf(p, located.settings.store) == ViewOf(p, d.settings.store)
  {
    var r := ReadSucceeds(p, d.settings, Region);
    LinkReports(p, d.settings, r, Region);
    ReadStaysTotal(p, d.settings, r.event, r.state);
    read, located := r.event, d.(settings := r.state, region := r.event.value[0]);
  }

  lemma BuildFrom(p: Env, caps: Caps, d: Device, read: Event, located: Device, l: Loading) returns (t: CallTransition)
    requires Total(d.settings.slots) && GetRegionSpec(p, d, located, OK, read)
    requires EnsureLoaded(p, located, l) && l.rc == OK
    ensures t.call.Build? && t.call.rc == OK && Perform(p, caps, d, t.call, t.device)
  {
    t := CallTransition(Build(OK, ConfigFrom(l.mid.cred, l.mid.region, caps), OK, read, located, l), l.mid);
  }

  lemma BuildAfterReboot(p: Env, caps: Caps, d: Device) returns (t: CallTransition)
    requires Coherent(p, d.settings) && !d.started && d.cred == NO_CRED
    requires Loads(ViewOf(p, d.settings.store)) && ViewOf(p, d.settings.store)[Region].Value?
    ensures t.call.Build? && t.call.rc == OK && Perform(p, caps, d, t.call, t.device)
  {
    var read, located := LocateRegion(p, d);
    var l := LoadSucceeds(p, located);
    t := BuildFrom(p, caps, d, read, located, l);
  }

  lemma LoadKeepsTotal(p: Env, d: Device, l: Loading)
    requires Coherent(p, d.settings) && !d.cred.loaded && EnsureLoaded(p, d, l)
    ensures Total(l.mid.settings.slots)
  {
    LoadKeepsSync(p, d, l);
  }

  lemma CallRunCons(p: Env, caps: Caps, d: Device, t: CallTransition, rest: seq<CallTransition>)
    requires Perform(p, caps, d, t.call, t.device) && CallRun(p, caps, t.device, rest)
    ensures CallRun(p, caps, d, [t] + rest)
  {
    assert ([t] + rest)[1..] == rest;
  }

  lemma SelectLoads(p: Env, d: Device, d': Device, words: Words, l: Loading)
    requires SetMaskSpec(p, d, d', Some(words), OK, l) && Synced(p, d)
    ensures d'.cred.loaded && d'.started == d.started && Synced(p, d')
  {
    SelectMask(p, d, d', words, l);
  }

  lemma RebootSucceeds(p: Env, caps: Caps, d: Device) returns (t: CallTransition)
    requires Total(d.settings.slots)
    ensures t.call.RebootAll? && Perform(p, caps, d, t.call, t.device)
    ensures t.device == Device(State(d.settings.store, Unloaded()), NO_CRED, false, REGION_EU_868)
  {
    t := CallTransition(RebootAll, Device(State(d.settings.store, Unloaded()), NO_CRED, false, REGION_EU_868));
  }

  /** Three calls without a failing clear make a run that is in step. */
  lemma ThreeCalls(p: Env, caps: Caps, d: Device, a: CallTransition, b: CallTransition, c: CallTransition)
    requires Perform(p, caps, d, a.call, a.device) && Perform(p, caps, a.device, b.call, b.device)
    requires Perform(p, caps, b.device, c.call, c.device)
    requires !a.call.ClearAll? && (b.call.ClearAll? ==> b.call.rc == OK) && !c.call.ClearAll?
    ensures CallRun(p, caps, d, [a, b, c]) && InSync(true, d, [a, b, c])
  {
    CallRunCons(p, caps, b.device, c, []);
    CallRunCons(p, caps, a.device, b, [c]);
    CallRunCons(p, caps, d, a, [b, c]);
    assert [a, b, c] == [a] + [b, c];
    assert InSync(true, c.device, [c][1..]);
    assert InSync(true, b.device, [c]);
    assert [b, c][1..] == [c];
    assert InSync(true, a.device, [b, c]);
    assert [a, b, c][1..] == [b, c];
  }

  /** A loaded, started device with a stored mask and a stale region. */
  ghost predicate StaleDevice(p: Env, caps: Caps, d: Device) {
    && Synced(p, d) && d.started && d.cred.loaded && Loads(ViewOf(p, d.settings.store))
    && MaskMeetsStaleRegion(ViewOf(p, d.settings.store), d, caps)
  }

  lemma SelectGoesStale(p: Env, caps: Caps, d: Device, clear: CallTransition, select: CallTransition, words: Words)
    requires Synced(p, d) && d.started && FixedPlan(d.region) && caps.channel && !d.cred.joinActive
    requires clear.call == ClearAll(OK, {}) && Perform(p, caps, d, clear.call, clear.device)
    requires select.call.SetMask? && select.call.mask == Some(words) && select.call.rc == OK
    requires Perform(p, caps, clear.device, select.call, select.device)
    ensures StaleDevice(p, caps, select.device)
  {
    ClearWhileStartedGoesStale(p, caps, d, clear.device, select.device, {}, words, select.call.l);
    FullClear(p, d, clear.device, {});
    SelectLoads(p, clear.device, select.device, words, select.call.l);
  }

  /** Start on a fixed plan, clear everything, select channels. */
  lemma ThreeStaleCalls(p: Env, caps: Caps, words: Words)
      returns (init: CallTransition, clear: CallTransition, select: CallTransition)
    requires caps.channel && Selects(words)
    ensures init.call == Init(REGION_US_915, OK, OK, OK) && Perform(p, caps, Factory(), init.call, init.device)
    ensures clear.call == ClearAll(OK, {}) && Perform(p, caps, init.device, clear.call, clear.device)
    ensures select.call.SetMask? && select.call.mask == Some(words) && select.call.rc == OK
    ensures Perform(p, caps, clear.device, select.call, select.device)
    ensures StaleDevice(p, caps, select.device)
  {
    init := InitOnFixedPlan(p, caps);
    clear := ClearWhileStarted(p, caps, init.device);
    select := SelectSucceeds(p, caps, clear.device, words);
    SelectGoesStale(p, caps, init.device, clear, select, words);
  }

  lemma StaleRun(p: Env, caps: Caps, words: Words) returns (run: seq<CallTransition>)
    requires caps.channel && Selects(words)
    ensures CallRun(p, caps, Factory(), run) && |run| == 3 && InSync(true, Factory(), run)
    ensures run[0].call == Init(REGION_US_915, OK, OK, OK) && run[1].call == ClearAll(OK, {})
    ensures run[2].call.SetMask? && run[2].call.mask == Some(words) && run[2].call.rc == OK
    ensures StaleDevice(p, caps, EndOf(Factory(), run))
  {
    var init, clear, select := ThreeStaleCalls(p, caps, words);
    run := [init, clear, select];
    ThreeCalls(p, caps, Factory(), init, clear, select);
  }

  /**
   * From empty flash: start on a fixed plan, clear everything, select channels, build, reboot, build. Every call
   * succeeds and the two configurations differ.
   */
  lemma ClearedRegionChangesConfig(p: Env, caps: Caps, words: Words)
      returns (run: seq<CallTransition>, before: CallTransition, reboot: CallTransition, after: CallTransition)
    requires caps.channel && Selects(words)
    ensures CallRun(p, caps, Factory(), run) && |run| == 3
    ensures run[0].call == Init(REGION_US_915, OK, OK, OK) && run[1].call == ClearAll(OK, {})
    ensures run[2].call.SetMask? && run[2].call.mask == Some(words) && run[2].call.rc == OK
    ensures before.call.Build? && before.call.rc == OK
    ensures Perform(p, caps, EndOf(Factory(), run), before.call, before.device)
    ensures reboot.call.RebootAll? && Perform(p, caps, before.device, reboot.call, reboot.device)
    ensures after.call.Build? && after.call.rc == OK && Perform(p, caps, reboot.device, after.call, after.device)
    ensures before.call.config != after.call.config
  {
    run := StaleRun(p, caps, words);
    var d := EndOf(Factory(), run);
    before := BuildWhileStarted(p, caps, d);
    reboot := RebootSucceeds(p, caps, d);
    after := BuildAfterReboot(p, caps, reboot.device);
    ConfigSurvivesReboot(p, caps, Factory(), run, before, reboot, after);
  }
}
