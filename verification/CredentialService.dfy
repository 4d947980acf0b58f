/** The credential file as written: a static struct patched under a lock, over the settings service. */
module CredentialService {
  import opened Options
  import opened Errors
  import opened Bytes
  import opened ChannelMask
  import opened Settings
  import opened SettingsRuns
  import opened Credentials
  import SettingsService

  const NO_EVENT: Event := Reboot

  class Service {
    const svc: SettingsService.Service
    const caps: Caps
    var cred: Cred
    var started: bool
    var region: byte

    ghost function Now(): Device
      reads this, svc
    {
      Device(svc.Now(), cred, started, region)
    }

    ghost predicate Valid()
      reads this, svc
    {
      svc.Valid()
    }

    constructor (svc: SettingsService.Service, caps: Caps)
      requires svc.Valid()
      ensures Valid() && this.svc == svc && this.caps == caps
      ensures Now() == Device(svc.Now(), NO_CRED, false, REGION_EU_868)
    {
      this.svc := svc;
      this.caps := caps;
      cred, started, region := NO_CRED, false, REGION_EU_868;
    }

    /** One read of the load sequence. */
    method ReadKey(k: Key) returns (rc: int, reply: Field, ghost t: Transition)
      requires Valid()
      modifies svc
      ensures Valid() && Link(svc.p, old(svc.Now()), t, k) && t.state == svc.Now() && t.event.rc == rc
      ensures rc == OK ==> reply == Field(t.event.value, t.event.found) && |reply.value| == Size(k)
    {
      ghost var faulted;
      var value, found;
      rc, value, found, faulted := svc.Read(k, Size(k));
      reply := Field(value, found);
      t := Transition(Read(k, Size(k), rc, value, found, faulted), svc.Now());
      ReadStaysTotal(svc.p, old(svc.Now()), t.event, svc.Now());
    }

    method ReadAll() returns (rc: int, replies: Replies, ghost trail: seq<Transition>)
      requires Valid()
      modifies svc
      ensures Valid() && Chain(svc.p, old(svc.Now()), trail)
      ensures svc.Now() == ChainEnd(old(svc.Now()), trail) && rc == ChainRc(trail)
      ensures rc == OK ==> |trail| == |LOAD_KEYS| && Collected(trail, replies) && replies.Sized()
    {
      ghost var first := svc.Now();
      rc, replies, trail := OK, NO_REPLIES, [];
      for i := 0 to |LOAD_KEYS|
        invariant Valid() && |trail| == i && rc == OK
        invariant Chain(svc.p, first, trail) && svc.Now() == ChainEnd(first, trail) && ChainRc(trail) == OK
        invariant Collected(trail, replies)
        invariant SizedUpTo(replies, i)
      {
        ghost var t;
        var reply;
        rc, reply, t := ReadKey(LOAD_KEYS[i]);
        ExtendChain(svc.p, first, trail, t);
        if rc == OK {
          ExtendCollected(trail, replies, t);
          ExtendSized(replies, i, reply);
          replies := replies.Put(LOAD_KEYS[i], reply);
        }
        trail := trail + [t];
        if rc != OK {
          return;
        }
      }
    }

    /** Exposes nothing of a load that fails half-way. */
    method EnsureLoaded() returns (ghost l: Loading, rc: int)
      requires Valid()
      modifies this, svc
      ensures Valid() && Credentials.EnsureLoaded(svc.p, old(Now()), l)
      ensures l.rc == rc && l.mid == Now() && (rc == OK ==> cred.loaded)
    {
      if cred.loaded {
        return Loading(OK, [], NO_REPLIES, Now(), false), OK;
      }
      ghost var trail;
      var replies;
      rc, replies, trail := ReadAll();
      if rc == OK {
        cred := Assemble(replies).(joinActive := cred.joinActive);
      }
      l := Loading(rc, trail, replies, Now(), false);
    }

    /** Persists once the struct is loaded; the caller patches it. */
    method WriteLoaded(k: Key, bytes: seq<byte>, ghost d: Device, ghost l0: Loading, ghost exempt: bool)
        returns (rc: int, ghost l: Loading)
      requires Valid() && Credentials.EnsureLoaded(svc.p, d, l0) && l0.rc == OK && l0.mid == Now()
      requires exempt || !cred.joinActive
      modifies svc
      ensures Valid() && Guarded(svc.p, d, Now(), l, exempt, k, bytes, rc, cred)
      ensures l == l0.(faulted := l.faulted)
    {
      ghost var faulted;
      rc, faulted := svc.Write(k, bytes);
      l := l0.(faulted := faulted);
    }

    /** Loads, refuses while a join runs, and persists; the caller patches the struct. */
    method GuardedWrite(k: Key, bytes: seq<byte>) returns (rc: int, ghost l: Loading)
      requires Valid()
      modifies this, svc
      ensures Valid() && Guarded(svc.p, old(Now()), Now(), l, false, k, bytes, rc, l.mid.cred)
      ensures cred == l.mid.cred && started == l.mid.started && region == l.mid.region
    {
      l, rc := EnsureLoaded();
      if rc == OK && cred.joinActive {
        rc := ERR_BUSY;
      }
      if rc == OK {
        rc, l := WriteLoaded(k, bytes, old(Now()), l, false);
      }
    }

    /** `set_bytes` and `set_dev_addr`: one of the seven byte-array credentials. */
    method SetField(k: Key, src: seq<byte>) returns (rc: int, ghost l: Loading)
      requires Valid() && IsField(k)
      modifies this, svc
      ensures Valid() && SetFieldSpec(svc.p, old(Now()), Now(), k, src, rc, l)
    {
      if |src| != Size(k) {
        return ERR_INVALID, Loading(OK, [], NO_REPLIES, Now(), false);
      }
      rc, l := GuardedWrite(k, src);
      var patched := cred.(fields := cred.fields.Put(k, Field(src, true)));
      Patch(old(Now()), l, false, k, src, rc, patched);
    }

    /** `None` stands for a mode outside the enumeration. */
    method SetActivation(mode: Option<Activation>) returns (rc: int, ghost l: Loading)
      requires Valid()
      modifies this, svc
      ensures Valid() && SetActivationSpec(svc.p, old(Now()), Now(), mode, caps, rc, l)
    {
      if mode.None? || !Supported(mode.value, caps) {
        return if mode.None? then ERR_INVALID else ERR_NOT_SUPPORTED, Loading(OK, [], NO_REPLIES, Now(), false);
      }
      rc, l := GuardedWrite(Njm, [Wire(mode.value)]);
      Patch(old(Now()), l, false, Njm, [Wire(mode.value)], rc, cred.(njm := mode.value));
    }

    method SetChannelMask(mask: Option<Words>) returns (rc: int, ghost l: Loading)
      requires Valid()
      modifies this, svc
      ensures Valid() && SetMaskSpec(svc.p, old(Now()), Now(), mask, rc, l)
    {
      var candidate := ZERO_MASK;
      if mask.Some? {
        candidate := mask.value;
        if !Selects(candidate) {
          return ERR_INVALID, Loading(OK, [], NO_REPLIES, Now(), false);
        }
      }
      rc, l := GuardedWrite(ChMask, BytesOf(candidate));
      Patch(old(Now()), l, false, ChMask, BytesOf(candidate), rc, cred.(mask := candidate, maskSet := mask.Some?));
    }

    /** Publishes a patched struct once the setting is stored. */
    method Patch(ghost d: Device, ghost l: Loading, ghost exempt: bool,
                 ghost k: Key, ghost bytes: seq<byte>, rc: int, patched: Cred)
      requires Valid() && Guarded(svc.p, d, Now(), l, exempt, k, bytes, rc, l.mid.cred)
      modifies this
      ensures Valid() && Guarded(svc.p, d, Now(), l, exempt, k, bytes, rc, patched)
    {
      Patched(svc.p, d, Now(), l, exempt, k, bytes, rc, patched);
      if rc == OK {
        cred := patched;
      }
    }

    /** The join policy may change while a join runs. */
    method UpdatePolicy(auto: int, interval: int, attempts: int) returns (rc: int, ghost l: Loading)
      requires Valid()
      modifies this, svc
      ensures Valid() && UpdatePolicySpec(svc.p, old(Now()), Now(), auto, interval, attempts, rc, l)
    {
      if !PolicyArguments(auto, interval, attempts) {
        return ERR_INVALID, Loading(OK, [], NO_REPLIES, Now(), false);
      }
      l, rc := EnsureLoaded();
      var policy := NewPolicy(cred, auto, interval, attempts);
      if rc == OK {
        rc, l := WriteLoaded(JoinPolicy, policy, old(Now()), l, true);
        Patch(old(Now()), l, true, JoinPolicy, policy, rc,
              cred.(autoJoin := policy[0] != 0, interval := policy[1], attempts := policy[2]));
      }
    }

    method GetRegion() returns (rc: int, found: byte, ghost read: Event)
      requires Valid()
      modifies this, svc
      ensures Valid() && GetRegionSpec(svc.p, old(Now()), Now(), rc, read)
      ensures cred == old(cred) && started == old(started) && (rc == OK ==> found == region)
    {
      rc, found, read := OK, region, NO_EVENT;
      if !started {
        ghost var faulted;
        var value, present;
        label Before:
        rc, value, present, faulted := svc.Read(Region, 1);
        read := Read(Region, 1, rc, value, present, faulted);
        ReadStaysTotal(svc.p, old@Before(svc.Now()), read, svc.Now());
        if rc == OK {
          region := value[0];
        }
      }
      found := region;
    }

    method SetRegion(requested: byte) returns (rc: int)
      requires Valid()
      modifies this, svc
      ensures Valid() && SetRegionSpec(svc.p, old(Now()), Now(), requested, rc)
    {
      if requested > REGION_RU_864 {
        return ERR_INVALID;
      }
      if started {
        return ERR_INVALID_STATE;
      }
      ghost var faulted;
      rc, faulted := svc.Write(Region, [requested]);
      if rc == OK {
        region := requested;
      }
    }

    /** `backendRc` is what the backend's start returns. */
    method Init(requested: byte, backendRc: int) returns (rc: int, saved: int)
      requires Valid()
      modifies this, svc
      ensures Valid() && InitSpec(svc.p, old(Now()), Now(), requested, saved, backendRc, rc)
    {
      if requested > REGION_RU_864 {
        return ERR_INVALID, OK;
      }
      if started {
        return ERR_ALREADY, OK;
      }
      started := true;
      ghost var faulted;
      rc, faulted := svc.Write(Region, [requested]);
      saved := rc;
      if rc != OK {
        started := false;
        return;
      }
      region := requested;
      rc := backendRc;
      if rc != OK {
        started := false;
      }
    }

    method BuildConfig()
        returns (rc: int, config: Config, ghost regionRc: int, ghost read: Event, ghost located: Device,
                 ghost l: Loading)
      requires Valid()
      modifies this, svc
      ensures Valid() && BuildSpec(svc.p, old(Now()), Now(), caps, rc, config, regionRc, read, located, l)
    {
      config := Config(Otaa, 0, false, ZERO_MASK, AbpKeys([], [], []));
      var found;
      rc, found, read := GetRegion();
      regionRc, located, l := rc, Now(), Loading(OK, [], NO_REPLIES, Now(), false);
      if rc != OK {
        return;
      }
      l, rc := EnsureLoaded();
      if rc == OK {
        config := ConfigFrom(cred, found, caps);
      }
    }

    method SetJoinActive(active: bool)
      requires Valid()
      modifies this
      ensures Valid() && Now() == old(Now()).(cred := old(cred).(joinActive := active))
    {
      cred := cred.(joinActive := active);
    }

    method ClearSettings() returns (rc: int, ghost failed: set<Name>)
      requires Valid()
      modifies this, svc
      ensures Valid() && ClearAllSpec(old(Now()), Now(), rc, failed)
    {
      if cred.joinActive {
        return ERR_BUSY, {};
      }
      rc, failed := svc.Clear();
      if rc == OK {
        cred := NO_CRED;
      }
    }
  }
}
