/**
 * The credential store on top of the settings service: a second, all-or-nothing cache, the configured
 * region, and the join configuration built from both.
 */
module Credentials {
  import opened Options
  import opened Errors
  import opened Bytes
  import opened ChannelMask
  import opened Settings
  import opened SettingsRuns

  datatype Activation = Otaa | Abp

  datatype Field = Field(value: seq<byte>, present: bool)

  /** The seven byte-array members of the credential struct. */
  datatype Fields = Fields(devEui: Field, joinEui: Field, appKey: Field, genAppKey: Field,
                           devAddr: Field, nwkSKey: Field, appSKey: Field)
  {
    function Put(k: Key, f: Field): Fields {
      match k
      case DevEui => this.(devEui := f)
      case JoinEui => this.(joinEui := f)
      case AppKey => this.(appKey := f)
      case GenAppKey => this.(genAppKey := f)
      case DevAddr => this.(devAddr := f)
      case NwkSKey => this.(nwkSKey := f)
      case AppSKey => this.(appSKey := f)
      case _ => this
    }
  }

  /** The static credential struct. */
  datatype Cred = Cred(fields: Fields, njm: Activation, autoJoin: bool, interval: byte, attempts: byte,
                       mask: Words, maskSet: bool, joinActive: bool, loaded: bool)

  const NO_FIELD := Field([], false)
  const NO_FIELDS := Fields(NO_FIELD, NO_FIELD, NO_FIELD, NO_FIELD, NO_FIELD, NO_FIELD, NO_FIELD)
  const NO_CRED := Cred(NO_FIELDS, Otaa, false, 0, 0, ZERO_MASK, false, false, false)

  datatype Device = Device(settings: State, cred: Cred, started: bool, region: byte)

  datatype Caps = Caps(otaa: bool, abp: bool, channel: bool)

  datatype Keys =
    | OtaaKeys(devEui: seq<byte>, joinEui: seq<byte>, networkKey: seq<byte>, applicationKey: seq<byte>)
    | AbpKeys(devAddr: seq<byte>, networkSessionKey: seq<byte>, applicationSessionKey: seq<byte>)

  datatype Config = Config(activation: Activation, retryInterval: byte, maskSet: bool, mask: Words, keys: Keys)

  const KEEP := -1

  /** Keys in the order the loader reads them. */
  const LOAD_KEYS: seq<Key> :=
    [DevEui, JoinEui, AppKey, GenAppKey, DevAddr, NwkSKey, AppSKey, Njm, JoinPolicy, ChMask]

  predicate IsField(k: Key) {
    k.DevEui? || k.JoinEui? || k.AppKey? || k.GenAppKey? || k.DevAddr? || k.NwkSKey? || k.AppSKey?
  }

  predicate IsLoaded(k: Key) {
    IsField(k) || k.Njm? || k.JoinPolicy? || k.ChMask?
  }

  function LoadPosition(k: Key): (i: nat)
    requires IsLoaded(k)
    ensures i < |LOAD_KEYS| && LOAD_KEYS[i] == k
  {
    if k.DevEui? then 0 else if k.JoinEui? then 1 else if k.AppKey? then 2 else if k.GenAppKey? then 3
    else if k.DevAddr? then 4 else if k.NwkSKey? then 5 else if k.AppSKey? then 6 else if k.Njm? then 7
    else if k.JoinPolicy? then 8 else 9
  }

  lemma LoadPositions(i: nat)
    requires i < |LOAD_KEYS|
    ensures IsLoaded(LOAD_KEYS[i]) && LoadPosition(LOAD_KEYS[i]) == i
  {
  }

  predicate FixedPlan(region: byte) {
    region == REGION_US_915 || region == REGION_AU_915
  }

  function Wire(mode: Activation): byte {
    if mode == Abp then 0 else 1
  }

  /** One reply of the settings service for each loaded key. */
  datatype Replies = Replies(fields: Fields, njm: Field, policy: Field, mask: Field)
  {
    function Put(k: Key, f: Field): Replies {
      match k
      case Njm => this.(njm := f)
      case JoinPolicy => this.(policy := f)
      case ChMask => this.(mask := f)
      case _ => this.(fields := fields.Put(k, f))
    }

    function Get(k: Key): Field {
      match k
      case DevEui => fields.devEui
      case JoinEui => fields.joinEui
      case AppKey => fields.appKey
      case GenAppKey => fields.genAppKey
      case DevAddr => fields.devAddr
      case NwkSKey => fields.nwkSKey
      case AppSKey => fields.appSKey
      case Njm => njm
      case JoinPolicy => policy
      case ChMask => mask
      case _ => NO_FIELD
    }

    predicate Sized() {
      |njm.value| == 1 && |policy.value| == 3 && |mask.value| == 12
    }
  }

  const NO_REPLIES := Replies(NO_FIELDS, NO_FIELD, NO_FIELD, NO_FIELD)

  lemma PutThenGet(r: Replies, k: Key, f: Field, j: Key)
    requires IsLoaded(k) && IsLoaded(j)
    ensures r.Put(k, f).Get(j) == if j == k then f else r.Get(j)
  {
  }

  /** The credential struct those replies make. */
  function Assemble(r: Replies): Cred
    requires r.Sized()
  {
    var policy, mask := r.policy.value, WordsOf(r.mask.value);
    Cred(r.fields, if r.njm.value[0] == 0 then Abp else Otaa,
         policy[0] != 0, policy[1], policy[2],
         mask, r.mask.present && Selects(mask), false, true)
  }

  function FieldOf(o: Outcome): Field {
    if o.Value? then Field(o.value, o.found) else NO_FIELD
  }

  /** The replies a map of meanings gives. */
  ghost function Pick(v: map<Key, Outcome>): Replies
    requires Full(v)
  {
    Replies(Fields(FieldOf(v[DevEui]), FieldOf(v[JoinEui]), FieldOf(v[AppKey]), FieldOf(v[GenAppKey]),
                   FieldOf(v[DevAddr]), FieldOf(v[NwkSKey]), FieldOf(v[AppSKey])),
            FieldOf(v[Njm]), FieldOf(v[JoinPolicy]), FieldOf(v[ChMask]))
  }

  ghost predicate Full(v: map<Key, Outcome>) {
    forall k: Key :: k in v
  }

  /** All loaded keys have a meaning. */
  ghost predicate Loads(v: map<Key, Outcome>) {
    Full(v) && Pick(v).Sized() && forall k: Key | IsLoaded(k) :: v[k].Value?
  }

  /** The join configuration a credential struct stands for in a region. */
  function ConfigFrom(cred: Cred, region: byte, caps: Caps): Config {
    var f := cred.fields;
    var restricted := cred.maskSet && FixedPlan(region) && caps.channel;
    Config(cred.njm, cred.interval, restricted, if restricted then cred.mask else ZERO_MASK,
           if cred.njm == Abp then
             AbpKeys(f.devAddr.value, f.nwkSKey.value, f.appSKey.value)
           else
             OtaaKeys(f.devEui.value, f.joinEui.value, f.appKey.value,
                      if f.genAppKey.present then f.genAppKey.value else f.appKey.value))
  }

  // ----- Calls -----

  /** One settings read of a load. */
  ghost predicate Link(p: Env, before: State, t: Transition, k: Key) {
    && Total(before.slots) && Total(t.state.slots)
    && t.event.Read? && t.event.key == k && t.event.size == Size(k)
    && Step(p, before, t.event, t.state)
  }

  ghost function ChainEnd(s: State, trail: seq<Transition>): State {
    if trail == [] then s else trail[|trail| - 1].state
  }

  ghost function ChainRc(trail: seq<Transition>): int {
    if trail != [] && trail[|trail| - 1].event.Read? then trail[|trail| - 1].event.rc else OK
  }

  /** The settings reads of one load, in order, up to the first that fails. */
  ghost predicate Chain(p: Env, s: State, trail: seq<Transition>) {
    trail != [] ==>
      var last := |trail| - 1;
      && last < |LOAD_KEYS|
      && Chain(p, s, trail[..last]) && ChainRc(trail[..last]) == OK
      && Link(p, ChainEnd(s, trail[..last]), trail[last], LOAD_KEYS[last])
  }

  /** The replies of the first `|trail|` keys. */
  ghost predicate Collected(trail: seq<Transition>, r: Replies)
    requires |trail| <= |LOAD_KEYS|
  {
    forall i | 0 <= i < |trail| ::
      trail[i].event.Read? && r.Get(LOAD_KEYS[i]) == Field(trail[i].event.value, trail[i].event.found)
  }

  lemma ExtendChain(p: Env, s: State, trail: seq<Transition>, t: Transition)
    requires |trail| < |LOAD_KEYS| && Chain(p, s, trail) && ChainRc(trail) == OK
    requires Link(p, ChainEnd(s, trail), t, LOAD_KEYS[|trail|])
    ensures Chain(p, s, trail + [t])
    ensures ChainEnd(s, trail + [t]) == t.state && ChainRc(trail + [t]) == t.event.rc
  {
    assert (trail + [t])[..|trail|] == trail;
  }

  lemma ExtendCollected(trail: seq<Transition>, r: Replies, t: Transition)
    requires |trail| < |LOAD_KEYS| && Collected(trail, r) && t.event.Read?
    ensures Collected(trail + [t], r.Put(LOAD_KEYS[|trail|], Field(t.event.value, t.event.found)))
  {
    LoadPositions(|trail|);
    forall i | 0 <= i < |trail| + 1
      ensures r.Put(LOAD_KEYS[|trail|], Field(t.event.value, t.event.found)).Get(LOAD_KEYS[i])
           == Field((trail + [t])[i].event.value, (trail + [t])[i].event.found)
    {
      LoadPositions(i);
      PutThenGet(r, LOAD_KEYS[|trail|], Field(t.event.value, t.event.found), LOAD_KEYS[i]);
    }
  }

  /** The sizes the struct needs, for the keys already read. */
  predicate SizedUpTo(r: Replies, n: nat) {
    (n > 7 ==> |r.njm.value| == 1) && (n > 8 ==> |r.policy.value| == 3) && (n > 9 ==> |r.mask.value| == 12)
  }

  lemma ExtendSized(r: Replies, n: nat, f: Field)
    requires n < |LOAD_KEYS| && SizedUpTo(r, n) && |f.value| == Size(LOAD_KEYS[n])
    ensures SizedUpTo(r.Put(LOAD_KEYS[n], f), n + 1)
  {
    LoadPositions(n);
  }

  /**
   * How a call made sure the struct is loaded: the reads, their replies, the result and the device after it; and
   * whether a flash failure hit the write that followed.
   */
  datatype Loading = Loading(rc: int, trail: seq<Transition>, replies: Replies, mid: Device, faulted: bool)

  ghost predicate EnsureLoaded(p: Env, d: Device, l: Loading) {
    if d.cred.loaded then l.rc == OK && l.mid == d
    else
      && Chain(p, d.settings, l.trail)
      && l.rc == ChainRc(l.trail)
      && l.mid.settings == ChainEnd(d.settings, l.trail)
      && l.mid.started == d.started && l.mid.region == d.region
      && if l.rc == OK then
           && |l.trail| == |LOAD_KEYS|
           && Collected(l.trail, l.replies) && l.replies.Sized()
           && l.mid.cred == Assemble(l.replies).(joinActive := d.cred.joinActive)
         else
           l.mid.cred == d.cred
  }

  /** Writes one setting and, only if that succeeds, patches the struct. */
  ghost predicate Persist(p: Env, d: Device, d': Device, k: Key, bytes: seq<byte>, rc: int, faulted: bool,
                          patched: Cred)
    requires Total(d.settings.slots)
  {
    && WriteSpec(p, d.settings, d'.settings, k, bytes, rc, faulted)
    && d' == d.(settings := d'.settings, cred := if rc == OK then patched else d.cred)
  }

  /** The common frame of the setters: load, refuse while a join runs unless exempt, persist, patch. */
  ghost predicate Guarded(p: Env, d: Device, d': Device, l: Loading, exempt: bool,
                          k: Key, bytes: seq<byte>, rc: int, patched: Cred) {
    && EnsureLoaded(p, d, l) && Total(l.mid.settings.slots)
    && if l.rc != OK then rc == l.rc && d' == l.mid
       else if l.mid.cred.joinActive && !exempt then rc == ERR_BUSY && d' == l.mid
       else Persist(p, l.mid, d', k, bytes, rc, l.faulted, patched)
  }

  ghost predicate SetFieldSpec(p: Env, d: Device, d': Device, k: Key, src: seq<byte>, rc: int, l: Loading)
    requires IsField(k)
  {
    if |src| != Size(k) then rc == ERR_INVALID && d' == d
    else Guarded(p, d, d', l, false, k, src, rc, l.mid.cred.(fields := l.mid.cred.fields.Put(k, Field(src, true))))
  }

  predicate Supported(mode: Activation, caps: Caps) {
    if mode == Otaa then caps.otaa else caps.abp
  }

  /** `None` stands for a mode outside the enumeration. */
  ghost predicate SetActivationSpec(p: Env, d: Device, d': Device, mode: Option<Activation>, caps: Caps, rc: int,
                                    l: Loading) {
    if mode.None? then rc == ERR_INVALID && d' == d
    else if !Supported(mode.value, caps) then rc == ERR_NOT_SUPPORTED && d' == d
    else Guarded(p, d, d', l, false, Njm, [Wire(mode.value)], rc, l.mid.cred.(njm := mode.value))
  }

  ghost predicate SetMaskSpec(p: Env, d: Device, d': Device, mask: Option<Words>, rc: int, l: Loading) {
    var words := if mask.Some? then mask.value else ZERO_MASK;
    if mask.Some? && !Selects(words) then rc == ERR_INVALID && d' == d
    else Guarded(p, d, d', l, false, ChMask, BytesOf(words), rc, l.mid.cred.(mask := words, maskSet := mask.Some?))
  }

  /** A guarded write followed by a patch of the struct is what each setter promises. */
  lemma Patched(p: Env, d: Device, d1: Device, l: Loading, exempt: bool,
                k: Key, bytes: seq<byte>, rc: int, patched: Cred)
    requires Guarded(p, d, d1, l, exempt, k, bytes, rc, l.mid.cred)
    ensures Guarded(p, d, if rc == OK then d1.(cred := patched) else d1, l, exempt, k, bytes, rc, patched)
    ensures d1.cred == l.mid.cred
  {
  }

  predicate PolicyArguments(auto: int, interval: int, attempts: int) {
    && (auto == KEEP || auto == 0 || auto == 1)
    && (interval == KEEP || JOIN_INTERVAL_MIN <= interval <= 255)
    && (attempts == KEEP || 0 <= attempts <= 255)
  }

  function NewPolicy(cred: Cred, auto: int, interval: int, attempts: int): (v: seq<byte>)
    requires PolicyArguments(auto, interval, attempts)
    ensures |v| == 3
  {
    [if auto == KEEP then (if cred.autoJoin then 1 else 0) else auto,
     if interval == KEEP then cred.interval else interval,
     if attempts == KEEP then cred.attempts else attempts]
  }

  /** The join policy may change while a join runs. */
  ghost predicate UpdatePolicySpec(p: Env, d: Device, d': Device, auto: int, interval: int, attempts: int,
                                   rc: int, l: Loading) {
    if !PolicyArguments(auto, interval, attempts) then rc == ERR_INVALID && d' == d
    else
      var v := NewPolicy(l.mid.cred, auto, interval, attempts);
      Guarded(p, d, d', l, true, JoinPolicy, v, rc,
              l.mid.cred.(autoJoin := v[0] != 0, interval := v[1], attempts := v[2]))
  }

  /** Before the start the stored region is read; afterwards the configured one is fixed. */
  ghost predicate GetRegionSpec(p: Env, d: Device, d': Device, rc: int, read: Event)
    requires Total(d.settings.slots)
  {
    if d.started then rc == OK && d' == d
    else
      && read.Read? && read.key == Region && read.size == 1 && read.rc == rc
      && Step(p, d.settings, read, d'.settings) && (rc == OK ==> |read.value| == 1)
      && d' == d.(settings := d'.settings, region := if rc == OK then read.value[0] else d.region)
  }

  ghost predicate SetRegionSpec(p: Env, d: Device, d': Device, region: byte, rc: int)
    requires Total(d.settings.slots)
  {
    if region > REGION_RU_864 then rc == ERR_INVALID && d' == d
    else if d.started then rc == ERR_INVALID_STATE && d' == d
    else
      && WriteSpec(p, d.settings, d'.settings, Region, [region], rc, rc != OK)
      && d' == d.(settings := d'.settings, region := if rc == OK then region else d.region)
  }

  /** Initialisation stores the region it is given and stays started only if the backend starts. */
  ghost predicate InitSpec(p: Env, d: Device, d': Device, region: byte, saved: int, backendRc: int, rc: int)
    requires Total(d.settings.slots)
  {
    if region > REGION_RU_864 then rc == ERR_INVALID && d' == d
    else if d.started then rc == ERR_ALREADY && d' == d
    else
      && WriteSpec(p, d.settings, d'.settings, Region, [region], saved, saved != OK)
      && rc == (if saved != OK then saved else backendRc)
      && d' == d.(settings := d'.settings, region := if saved == OK then region else d.region, started := rc == OK)
  }

  /** The region is looked up first; `located` is the device between the two phases. */
  ghost predicate BuildSpec(p: Env, d: Device, d': Device, caps: Caps, rc: int, config: Config,
                            regionRc: int, read: Event, located: Device, l: Loading)
    requires Total(d.settings.slots)
  {
    && GetRegionSpec(p, d, located, regionRc, read)
    && if regionRc != OK then rc == regionRc && d' == located
       else
         && EnsureLoaded(p, located, l) && rc == l.rc && d' == l.mid
         && (rc == OK ==> config == ConfigFrom(d'.cred, d'.region, caps))
  }

  ghost predicate ClearAllSpec(d: Device, d': Device, rc: int, failed: set<Name>)
    requires Total(d.settings.slots)
  {
    if d.cred.joinActive then rc == ERR_BUSY && d' == d
    else
      && ClearSpec(d.settings, d'.settings, rc, failed)
      && d' == d.(settings := d'.settings, cred := if rc == OK then NO_CRED else d.cred)
  }

  ghost predicate RebootDeviceSpec(d: Device, d': Device) {
    RebootSpec(d.settings, d'.settings) && d' == Device(d'.settings, NO_CRED, false, REGION_EU_868)
  }

  /** The remaining readers and writers of shared settings; none of them is a credential. */
  ghost predicate SharedSpec(p: Env, d: Device, d': Device, e: Event)
    requires Total(d.settings.slots)
  {
    && (e.Read? || (e.Write? && (e.key.Cfm? || e.key.Rety? || e.key.NetId?)))
    && Step(p, d.settings, e, d'.settings)
    && d' == d.(settings := d'.settings)
  }
}
