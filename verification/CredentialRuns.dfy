/** Whole runs of the credential store: two caches, the configured region and reboots. */
module CredentialRuns {
  import opened Options
  import opened Errors
  import opened Bytes
  import opened ChannelMask
  import opened Settings
  import opened SettingsRuns
  import opened Credentials

  ghost function CredOf(v: map<Key, Outcome>): Cred
    requires Loads(v)
  {
    Assemble(Pick(v))
  }

  /** The struct is the one a map of meanings stands for. */
  ghost predicate CredMatches(v: map<Key, Outcome>, cred: Cred) {
    Loads(v) && cred == CredOf(v).(joinActive := cred.joinActive)
  }

  /** Both caches agree with flash. */
  ghost predicate Synced(p: Env, d: Device) {
    Coherent(p, d.settings) && (d.cred.loaded ==> CredMatches(ViewOf(p, d.settings.store), d.cred))
  }

  /** The region a started service runs with is the stored one. */
  ghost predicate RegionFresh(p: Env, d: Device) {
    d.started ==> ViewOf(p, d.settings.store)[Region] == Value([d.region], true)
  }

  /** A read reported the meaning of its key. */
  ghost predicate Reported(v: map<Key, Outcome>, t: Transition, k: Key) {
    t.event.Read? && k in v && v[k] == Value(t.event.value, t.event.found)
  }

  ghost predicate AllReported(v: map<Key, Outcome>, trail: seq<Transition>)
    requires |trail| <= |LOAD_KEYS|
  {
    forall i | 0 <= i < |trail| :: Reported(v, trail[i], LOAD_KEYS[i])
  }

  lemma ExtendReported(v: map<Key, Outcome>, trail: seq<Transition>)
    requires 0 < |trail| <= |LOAD_KEYS| && AllReported(v, trail[..|trail| - 1])
    requires Reported(v, trail[|trail| - 1], LOAD_KEYS[|trail| - 1])
    ensures AllReported(v, trail)
  {
    forall i | 0 <= i < |trail|
      ensures Reported(v, trail[i], LOAD_KEYS[i])
    {
      if i < |trail| - 1 {
        assert trail[i] == trail[..|trail| - 1][i];
      }
    }
  }

  lemma LinkReports(p: Env, s: State, t: Transition, k: Key)
    requires Coherent(p, s) && Link(p, s, t, k)
    ensures Coherent(p, t.state) && ViewOf(p, t.state.store) == ViewOf(p, s.store)
    ensures t.event.rc == OK ==> Reported(ViewOf(p, s.store), t, k)
  {
    ReadStaysCoherent(p, s, t.event, t.state);
    assert SlotCoherent(p, s.store, k, s.slots[k]);
  }

  /** The reads of a load move no meaning, and if they succeed each reports the meaning of its key. */
  lemma {:induction false} ChainReports(p: Env, s: State, trail: seq<Transition>)
    requires Coherent(p, s) && Chain(p, s, trail)
    ensures Coherent(p, ChainEnd(s, trail)) && ViewOf(p, ChainEnd(s, trail).store) == ViewOf(p, s.store)
    ensures |trail| <= |LOAD_KEYS|
    ensures ChainRc(trail) == OK ==> AllReported(ViewOf(p, s.store), trail)
  {
    if trail != [] {
      var last := |trail| - 1;
      ChainReports(p, s, trail[..last]);
      LinkReports(p, ChainEnd(s, trail[..last]), trail[last], LOAD_KEYS[last]);
      if ChainRc(trail) == OK {
        ExtendReported(ViewOf(p, s.store), trail);
      }
    }
  }

  lemma RepliesArePicked(v: map<Key, Outcome>, trail: seq<Transition>, r: Replies)
    requires Full(v) && |trail| == |LOAD_KEYS| && Collected(trail, r) && r.Sized() && AllReported(v, trail)
    ensures Loads(v) && r == Pick(v)
  {
    forall k: Key | IsLoaded(k)
      ensures v[k].Value? && FieldOf(v[k]) == r.Get(k)
    {
      assert Reported(v, trail[LoadPosition(k)], LOAD_KEYS[LoadPosition(k)]);
    }
    PickedFields(v, r);
  }

  lemma PickedFields(v: map<Key, Outcome>, r: Replies)
    requires Full(v) && forall k: Key | IsLoaded(k) :: FieldOf(v[k]) == r.Get(k)
    ensures r == Pick(v)
  {
    assert IsLoaded(DevEui) && IsLoaded(JoinEui) && IsLoaded(AppKey) && IsLoaded(GenAppKey) && IsLoaded(DevAddr);
    assert IsLoaded(NwkSKey) && IsLoaded(AppSKey) && IsLoaded(Njm) && IsLoaded(JoinPolicy) && IsLoaded(ChMask);
  }

  /** A load answers with the stored credentials and moves no meaning. */
  lemma LoadKeepsSync(p: Env, d: Device, l: Loading)
    requires Synced(p, d) && EnsureLoaded(p, d, l)
    ensures Synced(p, l.mid) && ViewOf(p, l.mid.settings.store) == ViewOf(p, d.settings.store)
    ensures l.rc == OK ==> l.mid.cred.loaded
    ensures l.mid.started == d.started && l.mid.region == d.region && l.mid.cred.joinActive == d.cred.joinActive
  {
    if !d.cred.loaded {
      ChainReports(p, d.settings, l.trail);
      if l.rc == OK {
        RepliesArePicked(ViewOf(p, d.settings.store), l.trail, l.replies);
      }
    }
  }

  /** Moving one meaning moves one reply. */
  lemma PickAfterWrite(v: map<Key, Outcome>, k: Key, bytes: seq<byte>)
    requires Full(v)
    ensures IsLoaded(k) ==> Pick(v[k := Value(bytes, true)]) == Pick(v).Put(k, Field(bytes, true))
    ensures !IsLoaded(k) ==> Pick(v[k := Value(bytes, true)]) == Pick(v)
  {
  }

  /** The patch of a setter is right: it makes the struct what a fresh load would make it. */
  ghost predicate RightPatch(v: map<Key, Outcome>, k: Key, bytes: seq<byte>, active: bool, patched: Cred) {
    IsLoaded(k) && Full(v)
    && var r := Pick(v).Put(k, Field(bytes, true));
    r.Sized() && patched == Assemble(r).(joinActive := active)
  }

  lemma LoadedIsNotSplit(k: Key)
    requires IsLoaded(k)
    ensures !IsSplit(k)
  {
  }

  lemma PatchMatches(v: map<Key, Outcome>, k: Key, bytes: seq<byte>, active: bool, patched: Cred)
    requires Loads(v) && RightPatch(v, k, bytes, active, patched)
    ensures CredMatches(v[k := Value(bytes, true)], patched)
  {
    PickAfterWrite(v, k, bytes);
  }

  lemma OtherMeaningKeepsCred(v: map<Key, Outcome>, cred: Cred, k: Key, bytes: seq<byte>)
    requires Full(v) && !IsLoaded(k)
    ensures CredMatches(v, cred) ==> CredMatches(v[k := Value(bytes, true)], cred)
  {
    PickAfterWrite(v, k, bytes);
  }

  /** A persisted value moves the meaning of its key and no other. */
  lemma PersistAdvances(p: Env, d: Device, d': Device, k: Key, bytes: seq<byte>, rc: int, faulted: bool, patched: Cred)
    requires Coherent(p, d.settings) && Persist(p, d, d', k, bytes, rc, faulted, patched) && !IsSplit(k)
    ensures Coherent(p, d'.settings)
    ensures ViewOf(p, d'.settings.store)
         == if rc == OK then ViewOf(p, d.settings.store)[k := Value(bytes, true)] else ViewOf(p, d.settings.store)
  {
    WriteAdvances(p, d.settings, k, bytes, rc, faulted, d'.settings);
  }

  lemma CredAfterPersist(v: map<Key, Outcome>, v': map<Key, Outcome>, cred: Cred, cred': Cred,
                         k: Key, bytes: seq<byte>, rc: int, patched: Cred)
    requires CredMatches(v, cred) && RightPatch(v, k, bytes, cred.joinActive, patched)
    requires v' == (if rc == OK then v[k := Value(bytes, true)] else v)
    requires cred' == (if rc == OK then patched else cred)
    ensures CredMatches(v', cred')
  {
    if rc == OK {
      PatchMatches(v, k, bytes, cred.joinActive, patched);
    }
  }

  lemma PersistKeepsSync(p: Env, d: Device, d': Device, k: Key, bytes: seq<byte>, rc: int, faulted: bool, patched: Cred)
    requires Synced(p, d) && d.cred.loaded && Persist(p, d, d', k, bytes, rc, faulted, patched)
    requires RightPatch(ViewOf(p, d.settings.store), k, bytes, d.cred.joinActive, patched)
    ensures Synced(p, d')
  {
    LoadedIsNotSplit(k);
    PersistAdvances(p, d, d', k, bytes, rc, faulted, patched);
    CredAfterPersist(ViewOf(p, d.settings.store), ViewOf(p, d'.settings.store), d.cred, d'.cred,
                     k, bytes, rc, patched);
  }

  lemma FieldPatch(v: map<Key, Outcome>, cred: Cred, k: Key, src: seq<byte>)
    requires CredMatches(v, cred) && IsField(k)
    ensures RightPatch(v, k, src, cred.joinActive, cred.(fields := cred.fields.Put(k, Field(src, true))))
  {
  }

  lemma ActivationPatch(v: map<Key, Outcome>, cred: Cred, mode: Activation)
    requires CredMatches(v, cred)
    ensures RightPatch(v, Njm, [Wire(mode)], cred.joinActive, cred.(njm := mode))
  {
  }

  lemma PolicyPatch(v: map<Key, Outcome>, cred: Cred, b: seq<byte>)
    requires CredMatches(v, cred) && |b| == 3
    ensures RightPatch(v, JoinPolicy, b, cred.joinActive,
                       cred.(autoJoin := b[0] != 0, interval := b[1], attempts := b[2]))
  {
  }

  lemma MaskPatch(v: map<Key, Outcome>, cred: Cred, mask: Option<Words>)
    requires CredMatches(v, cred) && (mask.Some? ==> Selects(mask.value))
    ensures var words := if mask.Some? then mask.value else ZERO_MASK;
            RightPatch(v, ChMask, BytesOf(words), cred.joinActive, cred.(mask := words, maskSet := mask.Some?))
  {
    var words := if mask.Some? then mask.value else ZERO_MASK;
    WordsOfBytesOf(words);
    SelectsUnlessZero(ZERO_MASK);
    var r := Pick(v).Put(ChMask, Field(BytesOf(words), true));
    assert r == Pick(v).(mask := Field(BytesOf(words), true)) && r.Sized();
  }

  // ----- Calls in sequence -----

  datatype Call =
    | Getter(l: Loading)
    | SetField(key: Key, src: seq<byte>, rc: int, l: Loading)
    | SetActivation(mode: Option<Activation>, rc: int, l: Loading)
    | SetMask(mask: Option<Words>, rc: int, l: Loading)
    | UpdatePolicy(auto: int, interval: int, attempts: int, rc: int, l: Loading)
    | GetRegion(rc: int, read: Event)
    | SetRegion(region: byte, rc: int)
    | Init(region: byte, saved: int, backendRc: int, rc: int)
    | Build(rc: int, config: Config, regionRc: int, read: Event, located: Device, l: Loading)
    | ClearAll(rc: int, failed: set<Name>)
    | Shared(e: Event)
    | JoinActive(active: bool)
    | RebootAll

  ghost predicate Perform(p: Env, caps: Caps, d: Device, c: Call, d': Device) {
    Total(d.settings.slots) &&
    match c
    case Getter(l) => EnsureLoaded(p, d, l) && d' == l.mid
    case SetField(k, src, rc, l) => IsField(k) && SetFieldSpec(p, d, d', k, src, rc, l)
    case SetActivation(mode, rc, l) => SetActivationSpec(p, d, d', mode, caps, rc, l)
    case SetMask(mask, rc, l) => SetMaskSpec(p, d, d', mask, rc, l)
    case UpdatePolicy(auto, interval, attempts, rc, l) => UpdatePolicySpec(p, d, d', auto, interval, attempts, rc, l)
    case GetRegion(rc, read) => GetRegionSpec(p, d, d', rc, read)
    case SetRegion(region, rc) => SetRegionSpec(p, d, d', region, rc)
    case Init(region, saved, backendRc, rc) => InitSpec(p, d, d', region, saved, backendRc, rc)
    case Build(rc, config, regionRc, read, located, l) =>
      BuildSpec(p, d, d', caps, rc, config, regionRc, read, located, l)
    case ClearAll(rc, failed) => ClearAllSpec(d, d', rc, failed)
    case Shared(e) => SharedSpec(p, d, d', e)
    case JoinActive(active) => d' == d.(cred := d.cred.(joinActive := active))
    case RebootAll => RebootDeviceSpec(d, d')
  }

  /** A setter moves the meaning of its own key, on success, and no other. */
  lemma GuardedAdvances(p: Env, d: Device, d': Device, l: Loading, exempt: bool,
                        k: Key, bytes: seq<byte>, rc: int, patched: Cred)
    requires Synced(p, d) && Guarded(p, d, d', l, exempt, k, bytes, rc, patched) && !IsSplit(k)
    ensures d'.started == d.started && d'.region == d.region
    ensures ViewOf(p, d'.settings.store)
         == if rc == OK then ViewOf(p, d.settings.store)[k := Value(bytes, true)] else ViewOf(p, d.settings.store)
  {
    LoadKeepsSync(p, d, l);
    if l.rc == OK && (exempt || !l.mid.cred.joinActive) {
      WriteAdvances(p, l.mid.settings, k, bytes, rc, l.faulted, d'.settings);
    }
  }

  lemma OtherMeaningUnmoved(v: map<Key, Outcome>, k: Key, o: Outcome, j: Key)
    requires j in v && j != k
    ensures v[k := o][j] == v[j]
  {
  }

  lemma GuardedKeepsRegion(p: Env, d: Device, d': Device, l: Loading, exempt: bool,
                           k: Key, bytes: seq<byte>, rc: int, patched: Cred)
    requires Synced(p, d) && Guarded(p, d, d', l, exempt, k, bytes, rc, patched) && IsLoaded(k)
    ensures RegionFresh(p, d) ==> RegionFresh(p, d')
  {
    LoadedIsNotSplit(k);
    GuardedAdvances(p, d, d', l, exempt, k, bytes, rc, patched);
    OtherMeaningUnmoved(ViewOf(p, d.settings.store), k, Value(bytes, true), Region);
  }

  /** A setter with the right patch keeps both caches in step with flash, and the region fresh. */
  lemma GuardedKeepsSync(p: Env, d: Device, d': Device, l: Loading, exempt: bool,
                         k: Key, bytes: seq<byte>, rc: int, patched: Cred)
    requires Synced(p, d) && Guarded(p, d, d', l, exempt, k, bytes, rc, patched) && IsLoaded(k)
    requires var v := ViewOf(p, l.mid.settings.store);
             CredMatches(v, l.mid.cred) ==> RightPatch(v, k, bytes, l.mid.cred.joinActive, patched)
    ensures Synced(p, d') && (RegionFresh(p, d) ==> RegionFresh(p, d'))
  {
    assert RegionFresh(p, d) ==> RegionFresh(p, d') by {
      GuardedKeepsRegion(p, d, d', l, exempt, k, bytes, rc, patched);
    }
    LoadKeepsSync(p, d, l);
    if l.rc == OK && (exempt || !l.mid.cred.joinActive) {
      PersistKeepsSync(p, l.mid, d', k, bytes, rc, l.faulted, patched);
    }
  }

  lemma SetFieldKeepsSync(p: Env, d: Device, d': Device, k: Key, src: seq<byte>, rc: int, l: Loading)
    requires Synced(p, d) && IsField(k) && SetFieldSpec(p, d, d', k, src, rc, l)
    ensures Synced(p, d') && (RegionFresh(p, d) ==> RegionFresh(p, d'))
  {
    if |src| == Size(k) {
      var v, cred := ViewOf(p, l.mid.settings.store), l.mid.cred;
      if CredMatches(v, cred) {
        FieldPatch(v, cred, k, src);
      }
      GuardedKeepsSync(p, d, d', l, false, k, src, rc, cred.(fields := cred.fields.Put(k, Field(src, true))));
    }
  }

  lemma SetActivationKeepsSync(p: Env, d: Device, d': Device, mode: Option<Activation>, caps: Caps, rc: int, l: Loading)
    requires Synced(p, d) && SetActivationSpec(p, d, d', mode, caps, rc, l)
    ensures Synced(p, d') && (RegionFresh(p, d) ==> RegionFresh(p, d'))
  {
    if mode.Some? && Supported(mode.value, caps) {
      var v, cred := ViewOf(p, l.mid.settings.store), l.mid.cred;
      if CredMatches(v, cred) {
        ActivationPatch(v, cred, mode.value);
      }
      GuardedKeepsSync(p, d, d', l, false, Njm, [Wire(mode.value)], rc, cred.(njm := mode.value));
    }
  }

  lemma SetMaskKeepsSync(p: Env, d: Device, d': Device, mask: Option<Words>, rc: int, l: Loading)
    requires Synced(p, d) && SetMaskSpec(p, d, d', mask, rc, l)
    ensures Synced(p, d') && (RegionFresh(p, d) ==> RegionFresh(p, d'))
  {
    var words := if mask.Some? then mask.value else ZERO_MASK;
    if mask.None? || Selects(words) {
      var v, cred := ViewOf(p, l.mid.settings.store), l.mid.cred;
      if CredMatches(v, cred) {
        MaskPatch(v, cred, mask);
      }
      GuardedKeepsSync(p, d, d', l, false, ChMask, BytesOf(words), rc, cred.(mask := words, maskSet := mask.Some?));
    }
  }

  lemma PolicyKeepsSync(p: Env, d: Device, d': Device, auto: int, interval: int, attempts: int, rc: int, l: Loading)
    requires Synced(p, d) && UpdatePolicySpec(p, d, d', auto, interval, attempts, rc, l)
    ensures Synced(p, d') && (RegionFresh(p, d) ==> RegionFresh(p, d'))
  {
    if PolicyArguments(auto, interval, attempts) {
      var v, cred := ViewOf(p, l.mid.settings.store), l.mid.cred;
      var b := NewPolicy(cred, auto, interval, attempts);
      if CredMatches(v, cred) {
        PolicyPatch(v, cred, b);
      }
      GuardedKeepsSync(p, d, d', l, true, JoinPolicy, b, rc,
                       cred.(autoJoin := b[0] != 0, interval := b[1], attempts := b[2]));
    }
  }

  /** Settings activity that moves no credential keeps the struct in step. */
  lemma SettingsKeepSync(p: Env, d: Device, e: Event, s': State)
    requires Synced(p, d) && Step(p, d.settings, e, s')
    requires e.Read? || (e.Write? && !IsLoaded(e.key) && !IsSplit(e.key))
    ensures Synced(p, d.(settings := s'))
  {
    if e.Read? {
      ReadStaysCoherent(p, d.settings, e, s');
    } else {
      WriteAdvances(p, d.settings, e.key, e.value, e.rc, e.faulted, s');
      OtherMeaningKeepsCred(ViewOf(p, d.settings.store), d.cred, e.key, e.value);
    }
  }

  lemma LookupKeepsSync(p: Env, d: Device, d': Device, rc: int, read: Event)
    requires Synced(p, d) && GetRegionSpec(p, d, d', rc, read)
    ensures Synced(p, d')
  {
    if !d.started {
      SettingsKeepSync(p, d, read, d'.settings);
    }
  }

  lemma SetRegionKeepsSync(p: Env, d: Device, d': Device, region: byte, rc: int)
    requires Synced(p, d) && SetRegionSpec(p, d, d', region, rc)
    ensures Synced(p, d')
  {
    if region <= REGION_RU_864 && !d.started {
      SettingsKeepSync(p, d, Write(Region, [region], rc, rc != OK), d'.settings);
    }
  }

  lemma InitKeepsSync(p: Env, d: Device, d': Device, region: byte, saved: int, backendRc: int, rc: int)
    requires Synced(p, d) && InitSpec(p, d, d', region, saved, backendRc, rc)
    ensures Synced(p, d')
  {
    if region <= REGION_RU_864 && !d.started {
      SettingsKeepSync(p, d, Write(Region, [region], saved, saved != OK), d'.settings);
    }
  }

  /** Every call but a partially failed clear keeps both caches in step with flash. */
  lemma CallKeepsSync(p: Env, caps: Caps, d: Device, c: Call, d': Device)
    requires Synced(p, d) && Perform(p, caps, d, c, d')
    requires c.ClearAll? ==> c.rc == OK || d.cred.joinActive
    ensures Synced(p, d')
  {
    match c
    case Getter(l) => LoadKeepsSync(p, d, l);
    case SetField(k, src, rc, l) => SetFieldKeepsSync(p, d, d', k, src, rc, l);
    case SetActivation(mode, rc, l) => SetActivationKeepsSync(p, d, d', mode, caps, rc, l);
    case SetMask(mask, rc, l) => SetMaskKeepsSync(p, d, d', mask, rc, l);
    case UpdatePolicy(auto, interval, attempts, rc, l) => PolicyKeepsSync(p, d, d', auto, interval, attempts, rc, l);
    case GetRegion(rc, read) => LookupKeepsSync(p, d, d', rc, read);
    case SetRegion(region, rc) => SetRegionKeepsSync(p, d, d', region, rc);
    case Init(region, saved, backendRc, rc) => InitKeepsSync(p, d, d', region, saved, backendRc, rc);
    case Build(rc, config, regionRc, read, located, l) =>
      LookupKeepsSync(p, d, located, regionRc, read);
      if regionRc == OK {
        LoadKeepsSync(p, located, l);
      }
    case ClearAll(rc, failed) =>
    case Shared(e) => SettingsKeepSync(p, d, e, d'.settings);
    case JoinActive(active) =>
    case RebootAll =>
  }

  // ----- The join configuration -----

  /** The configuration as a function of the settings alone, with no cache in sight. */
  ghost function StoredConfig(v: map<Key, Outcome>, region: byte, caps: Caps): Config
    requires Loads(v)
  {
    var mask := WordsOf(v[ChMask].value);
    var restricted := v[ChMask].found && Selects(mask) && FixedPlan(region) && caps.channel;
    var abp := v[Njm].value == [0];
    Config(if abp then Abp else Otaa, v[JoinPolicy].value[1],
           restricted, if restricted then mask else ZERO_MASK,
           if abp then AbpKeys(v[DevAddr].value, v[NwkSKey].value, v[AppSKey].value)
           else OtaaKeys(v[DevEui].value, v[JoinEui].value, v[AppKey].value,
                         if v[GenAppKey].found then v[GenAppKey].value else v[AppKey].value))
  }

  /** The region a build uses. */
  ghost function SeenRegion(v: map<Key, Outcome>, d: Device): byte {
    if !d.started && Region in v && v[Region].Value? && |v[Region].value| == 1 then v[Region].value[0] else d.region
  }

  lemma ConfigOfMatch(v: map<Key, Outcome>, cred: Cred, region: byte, caps: Caps)
    requires CredMatches(v, cred)
    ensures ConfigFrom(cred, region, caps) == StoredConfig(v, region, caps)
  {
    assert IsLoaded(DevEui) && IsLoaded(JoinEui) && IsLoaded(AppKey) && IsLoaded(GenAppKey) && IsLoaded(DevAddr);
    assert IsLoaded(NwkSKey) && IsLoaded(AppSKey) && IsLoaded(Njm) && IsLoaded(JoinPolicy) && IsLoaded(ChMask);
  }

  lemma LookupSeesRegion(p: Env, d: Device, located: Device, read: Event)
    requires Synced(p, d) && GetRegionSpec(p, d, located, OK, read)
    ensures var v := ViewOf(p, d.settings.store);
            Synced(p, located) && ViewOf(p, located.settings.store) == v
            && located.region == SeenRegion(v, d)
            && (!d.started ==> v[Region].Value? && v[Region].value == [located.region])
  {
    if !d.started {
      SettingsKeepSync(p, d, read, located.settings);
      ReadStaysCoherent(p, d.settings, read, located.settings);
      assert SlotCoherent(p, d.settings.store, Region, d.settings.slots[Region]);
    }
  }

  /** With both caches in step, a build that succeeds gives the stored configuration and moves no meaning. */
  lemma BuildIsStoredConfig(p: Env, caps: Caps, d: Device, c: Call, d': Device)
    requires Synced(p, d) && c.Build? && c.rc == OK && Perform(p, caps, d, c, d')
    ensures var v := ViewOf(p, d.settings.store);
            Synced(p, d') && ViewOf(p, d'.settings.store) == v && d'.started == d.started
            && Loads(v) && c.config == StoredConfig(v, SeenRegion(v, d), caps)
            && (!d.started ==> v[Region].Value? && v[Region].value == [SeenRegion(v, d)])
  {
    LookupSeesRegion(p, d, c.located, c.read);
    LoadKeepsSync(p, c.located, c.l);
    ConfigOfMatch(ViewOf(p, d.settings.store), d'.cred, d'.region, caps);
  }

  datatype CallTransition = CallTransition(call: Call, device: Device)

  ghost predicate CallRun(p: Env, caps: Caps, d: Device, run: seq<CallTransition>)
    decreases |run|
  {
    run != [] ==> Perform(p, caps, d, run[0].call, run[0].device) && CallRun(p, caps, run[0].device, run[1..])
  }

  ghost function EndOf(d: Device, run: seq<CallTransition>): Device {
    if run == [] then d else run[|run| - 1].device
  }

  /** Sync is lost by a partially failed clear and regained by a reboot or a full clear. */
  predicate NextSynced(d: Device, c: Call, synced: bool) {
    c.RebootAll? || (if c.ClearAll? && !d.cred.joinActive then c.rc == OK else synced)
  }

  ghost predicate InSync(synced: bool, d: Device, run: seq<CallTransition>)
    decreases |run|
  {
    if run == [] then synced else InSync(NextSynced(d, run[0].call, synced), run[0].device, run[1..])
  }

  lemma {:induction false} RunKeepsSync(p: Env, caps: Caps, d: Device, run: seq<CallTransition>, synced: bool)
    requires CallRun(p, caps, d, run) && (synced ==> Synced(p, d)) && InSync(synced, d, run)
    ensures Synced(p, EndOf(d, run))
    decreases |run|
  {
    if run != [] {
      var c, d' := run[0].call, run[0].device;
      var next := NextSynced(d, c, synced);
      if next && synced {
        CallKeepsSync(p, caps, d, c, d');
      }
      assert next ==> Synced(p, d');
      RunKeepsSync(p, caps, d', run[1..], next);
    }
  }

  /** A mask is stored, and the running region disagrees with the stored one on having a fixed plan. */
  ghost predicate MaskMeetsStaleRegion(v: map<Key, Outcome>, d: Device, caps: Caps)
    requires Loads(v)
  {
    && v[ChMask].found && Selects(WordsOf(v[ChMask].value)) && caps.channel
    && v[Region].Value? && v[Region].value != [] && FixedPlan(SeenRegion(v, d)) != FixedPlan(v[Region].value[0])
  }

  /**
   * Two-layer persistence: after any run that is in step at its end, the configuration built after a reboot
   * equals the one built just before it, except exactly when a stored mask meets a stale region.
   */
  lemma ConfigSurvivesReboot(p: Env, caps: Caps, boot: Device, run: seq<CallTransition>,
                             before: CallTransition, reboot: CallTransition, after: CallTransition)
    requires Synced(p, boot) && CallRun(p, caps, boot, run) && InSync(true, boot, run)
    requires before.call.Build? && before.call.rc == OK
    requires Perform(p, caps, EndOf(boot, run), before.call, before.device)
    requires reboot.call.RebootAll? && Perform(p, caps, before.device, reboot.call, reboot.device)
    requires after.call.Build? && after.call.rc == OK && Perform(p, caps, reboot.device, after.call, after.device)
    ensures var v := ViewOf(p, EndOf(boot, run).settings.store);
            Loads(v)
            && (before.call.config == after.call.config <==> !MaskMeetsStaleRegion(v, EndOf(boot, run), caps))
  {
    RunKeepsSync(p, caps, boot, run, true);
    var d := EndOf(boot, run);
    BuildIsStoredConfig(p, caps, d, before.call, before.device);
    BuildIsStoredConfig(p, caps, reboot.device, after.call, after.device);
    SelectsUnlessZero(ZERO_MASK);
  }
}
