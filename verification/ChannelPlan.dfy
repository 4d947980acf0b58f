/**
 * Fixed channel plans (sections 2.5 and 2.8 of RP002-1.0.3, LoRaWAN Regional Parameters): one stored mask, and its
 * views as a sub-band and as a single fixed channel.
 */
module ChannelPlan {
  import opened Options
  import opened Errors
  import opened Bytes
  import opened ChannelMask
  import opened Settings
  import opened SettingsRuns
  import opened Credentials
  import opened CredentialRuns

  const NARROW_STEP_HZ := 200000
  const WIDE_STEP_HZ := 1600000
  const SUB_BANDS := 8

  datatype Plan = Plan(narrow: u32, wide: u32)

  function PlanFor(region: byte, caps: Caps): Option<Plan> {
    if !caps.channel then None
    else if region == REGION_US_915 then Some(Plan(902300000, 903000000))
    else if region == REGION_AU_915 then Some(Plan(915200000, 915900000))
    else None
  }

  predicate IsPlan(plan: Plan) {
    plan == Plan(902300000, 903000000) || plan == Plan(915200000, 915900000)
  }

  function Frequency(plan: Plan, channel: nat): nat {
    if channel < FIXED_PLAN_WIDE then plan.narrow + channel * NARROW_STEP_HZ
    else plan.wide + (channel - FIXED_PLAN_WIDE) * WIDE_STEP_HZ
  }

  /** The first and last channel of each width, as the regional parameters list them. */
  lemma PlansMatchRegionalParameters(caps: Caps)
    requires caps.channel
    ensures var us, au := PlanFor(REGION_US_915, caps).value, PlanFor(REGION_AU_915, caps).value;
            && Frequency(us, 0) == 902300000 && Frequency(us, 63) == 914900000
            && Frequency(us, 64) == 903000000 && Frequency(us, 71) == 914200000
            && Frequency(au, 0) == 915200000 && Frequency(au, 63) == 927800000
            && Frequency(au, 64) == 915900000 && Frequency(au, 71) == 927100000
  {
  }

  /** Exactly the regions with a fixed plan have one here, and only with the channel capability. */
  lemma PlanOnlyWhereFixed(region: byte, caps: Caps)
    ensures PlanFor(region, caps).Some? <==> FixedPlan(region) && caps.channel
    ensures FixedPlan(region) <==> region == 1 || region == 2
    ensures PlanFor(region, caps).Some? ==> IsPlan(PlanFor(region, caps).value)
  {
  }

  /** Within a plan a frequency names one channel, never the zero that stands for "no fixed channel", in 32 bits. */
  lemma FrequencyIsInjective(plan: Plan, a: nat, b: nat)
    requires IsPlan(plan) && a < FIXED_PLAN_CHANNELS && b < FIXED_PLAN_CHANNELS
    requires Frequency(plan, a) == Frequency(plan, b)
    ensures a == b && 0 < Frequency(plan, a) < 0x1_0000_0000
  {
  }

  // ----- Masks of selections -----

  /** The channels from `first` on, put one by one. */
  function PutRange(mask: Words, first: nat, count: nat): (r: Words)
    requires first + count <= 96
    ensures forall c: nat | c < 96 :: Has(r, c) == (first <= c < first + count || Has(mask, c))
  {
    if count == 0 then mask else Put(PutRange(mask, first, count - 1), first + count - 1)
  }

  lemma ZeroHasNone()
    ensures forall c: nat | c < 96 :: !Has(ZERO_MASK, c)
  {
    ZeroMaskEmpty();
    forall c: nat | c < 96
      ensures !Has(ZERO_MASK, c)
    {
      assert c !in Channels(ZERO_MASK);
    }
  }

  function AllMask(): (r: Words)
    ensures Channels(r) == AllSet()
  {
    ZeroHasNone();
    PutRange(ZERO_MASK, 0, FIXED_PLAN_CHANNELS)
  }

  function BandMask(band: nat): (r: Words)
    requires 1 <= band <= SUB_BANDS
    ensures Channels(r) == BandSet(band)
  {
    ZeroHasNone();
    Put(PutRange(ZERO_MASK, (band - 1) * 8, 8), FIXED_PLAN_WIDE + band - 1)
  }

  function SingleMask(channel: nat): (r: Words)
    requires channel < FIXED_PLAN_CHANNELS
    ensures Channels(r) == {channel}
  {
    ZeroHasNone();
    Put(ZERO_MASK, channel)
  }

  predicate InPlan(c: nat) {
    c < FIXED_PLAN_CHANNELS
  }

  predicate InBand(band: nat, c: nat) {
    c / 8 == band - 1 || c == FIXED_PLAN_WIDE + band - 1
  }

  function AllSet(): set<nat> {
    set c: nat | c < FIXED_PLAN_CHANNELS && InPlan(c)
  }

  /** Eight 125 kHz channels and the 500 kHz channel among them. */
  function BandSet(band: nat): set<nat>
    requires 1 <= band <= SUB_BANDS
  {
    set c: nat | c < FIXED_PLAN_CHANNELS && InBand(band, c)
  }

  lemma BandsAreDistinct(a: nat, b: nat)
    requires 1 <= a <= SUB_BANDS && 1 <= b <= SUB_BANDS
    ensures BandSet(a) == BandSet(b) ==> a == b
    ensures BandSet(a) != AllSet()
  {
    assert FIXED_PLAN_WIDE + a - 1 in BandSet(a);
    assert (if a == 1 then 8 else 0) in AllSet() - BandSet(a);
  }

  // ----- The effective selection -----

  /** Without a restriction all channels of the plan are in use. */
  function Effective(cred: Cred): Words {
    if cred.maskSet then cred.mask else AllMask()
  }

  /** The full mask is stored as no restriction. */
  function Canonical(mask: Words): Option<Words> {
    if mask == AllMask() then None else Some(mask)
  }

  /** What the sub-band getter says of a mask. */
  predicate BandReport(mask: Words, rc: int, band: nat) {
    if Channels(mask) == AllSet() then rc == OK && band == 0
    else if rc == OK then 1 <= band <= SUB_BANDS && Channels(mask) == BandSet(band)
    else rc == ERR_NO_DATA && forall b | 1 <= b <= SUB_BANDS :: Channels(mask) != BandSet(b)
  }

  /** What the fixed-channel getter says of a mask. */
  predicate FixedReport(plan: Plan, mask: Words, frequency: nat) {
    if exists c: nat :: c < FIXED_PLAN_CHANNELS && Channels(mask) * AllSet() == {c} then
      exists c: nat :: c < FIXED_PLAN_CHANNELS && Channels(mask) * AllSet() == {c} && frequency == Frequency(plan, c)
    else frequency == 0
  }

  /** A report names a band exactly when that band is the selection. */
  lemma BandReportIff(mask: Words, rc: int, band: nat, b: nat)
    requires BandReport(mask, rc, band) && b <= SUB_BANDS
    ensures rc == OK && band == b <==> Channels(mask) == if b == 0 then AllSet() else BandSet(b)
  {
    if b != 0 {
      BandsAreDistinct(b, b);
      if rc == OK && band != 0 {
        BandsAreDistinct(band, b);
      }
    }
  }

  /** A report names a frequency exactly when its channel is the selection. */
  lemma FixedReportIff(plan: Plan, mask: Words, frequency: nat, c: nat)
    requires IsPlan(plan) && WithinPlan(mask) && FixedReport(plan, mask, frequency) && c < FIXED_PLAN_CHANNELS
    ensures frequency == Frequency(plan, c) <==> Channels(mask) == {c}
  {
    assert Channels(mask) * AllSet() == Channels(mask);
    FrequencyIsInjective(plan, c, c);
    if Channels(mask) == {c} {
      var a: nat :| a < FIXED_PLAN_CHANNELS && Channels(mask) * AllSet() == {a} && frequency == Frequency(plan, a);
      assert a in {c};
    } else if frequency == Frequency(plan, c) {
      var a: nat :| a < FIXED_PLAN_CHANNELS && Channels(mask) * AllSet() == {a} && frequency == Frequency(plan, a);
      FrequencyIsInjective(plan, a, c);
    }
  }

  // ----- Calls -----

  /** How a call found its plan: the region read, its device, and the result of the plan check. */
  datatype Lookup = Lookup(rc: int, regionRc: int, read: Event, located: Device)

  ghost predicate PlanSpec(p: Env, caps: Caps, d: Device, k: Lookup)
    requires Total(d.settings.slots)
  {
    && GetRegionSpec(p, d, k.located, k.regionRc, k.read)
    && k.rc == (if k.regionRc != OK then k.regionRc
                else if PlanFor(k.located.region, caps).None? then ERR_NOT_SUPPORTED else OK)
  }

  /** Zero-padded to the six words of the store. */
  function Padded(mask: seq<u16>): Words
    requires |mask| <= WORDS
  {
    mask + seq(WORDS - |mask|, _ => 0)
  }

  /** The target of a fixed-channel request: `None` if the frequency is not on the plan. */
  ghost predicate FixedTarget(plan: Plan, frequency: u32, target: Option<Words>) {
    if frequency == 0 then target == None
    else exists c: nat :: c < FIXED_PLAN_CHANNELS && Frequency(plan, c) == frequency && target == Some(SingleMask(c))
  }

  predicate OnPlan(plan: Plan, frequency: u32) {
    exists c: nat :: c < FIXED_PLAN_CHANNELS && Frequency(plan, c) == frequency
  }

  /** A setter: find the plan, check the request, and store its selection. */
  ghost predicate SelectSpec(p: Env, caps: Caps, d: Device, d': Device, k: Lookup, valid: bool, target: Option<Words>,
                             rc: int, l: Loading)
    requires Total(d.settings.slots)
  {
    && PlanSpec(p, caps, d, k)
    && if k.rc != OK then rc == k.rc && d' == k.located
       else if !valid then rc == ERR_INVALID && d' == k.located
       else SetMaskSpec(p, k.located, d', target, rc, l)
  }

  /** A getter: find the plan, load, and look at the effective mask. */
  ghost predicate ViewSpec(p: Env, caps: Caps, d: Device, d': Device, k: Lookup, l: Loading, rc: int)
    requires Total(d.settings.slots)
  {
    && PlanSpec(p, caps, d, k)
    && if k.rc != OK then rc == k.rc && d' == k.located
       else EnsureLoaded(p, k.located, l) && d' == l.mid && rc == l.rc
  }

  // ----- What is selected is what is seen -----

  lemma AcceptedTarget(p: Env, d: Device, d': Device, target: Option<Words>, l: Loading)
    requires SetMaskSpec(p, d, d', target, OK, l)
    ensures d'.cred.maskSet == target.Some?
    ensures target.Some? ==> d'.cred.mask == target.value && WithinPlan(target.value)
  {
  }

  lemma AllIsWithinPlan()
    ensures WithinPlan(AllMask())
  {
    forall c: nat | FIXED_PLAN_CHANNELS <= c < 96
      ensures !Has(AllMask(), c)
    {
      assert c !in AllSet() && AllSet() == Channels(AllMask());
    }
  }

  /** A stored selection is in effect, whatever its canonical form, and it is the one asked for. */
  lemma SelectionTakesEffect(p: Env, d: Device, d': Device, mask: Words, l: Loading)
    requires SetMaskSpec(p, d, d', Canonical(mask), OK, l)
    ensures Effective(d'.cred) == mask && WithinPlan(mask)
  {
    AcceptedTarget(p, d, d', Canonical(mask), l);
    AllIsWithinPlan();
  }

  /** A selection of all channels restricts nothing, and every other accepted one does. */
  lemma RestrictedIff(p: Env, d: Device, d': Device, mask: Words, l: Loading)
    requires SetMaskSpec(p, d, d', Canonical(mask), OK, l)
    ensures d'.cred.maskSet <==> Channels(mask) != AllSet()
  {
    AcceptedTarget(p, d, d', Canonical(mask), l);
    assert Channels(AllMask()) == AllSet();
    if Channels(mask) == AllSet() {
      EqualChannels(mask, AllMask());
    }
  }

  /** Clearing the restriction puts all channels in effect. */
  lemma NoRestrictionIsAll(p: Env, d: Device, d': Device, l: Loading)
    requires SetMaskSpec(p, d, d', None, OK, l)
    ensures Effective(d'.cred) == AllMask()
  {
    AcceptedTarget(p, d, d', None, l);
  }

  /** A sub-band that was set is the one reported, and 0 reports all. */
  lemma SubBandReadsBack(p: Env, d: Device, d': Device, b: nat, l: Loading, rc: int, band: nat)
    requires b <= SUB_BANDS
    requires SetMaskSpec(p, d, d', if b == 0 then None else Canonical(BandMask(b)), OK, l)
    requires BandReport(Effective(d'.cred), rc, band)
    ensures rc == OK && band == b
  {
    if b == 0 {
      NoRestrictionIsAll(p, d, d', l);
    } else {
      SelectionTakesEffect(p, d, d', BandMask(b), l);
    }
    BandReportIff(Effective(d'.cred), rc, band, b);
  }

  /** A fixed channel that was set is the one reported, and 0 reports none. */
  lemma FixedChannelReadsBack(p: Env, d: Device, d': Device, plan: Plan, frequency: u32, target: Option<Words>,
                              l: Loading, reported: nat)
    requires IsPlan(plan) && FixedTarget(plan, frequency, target)
    requires SetMaskSpec(p, d, d', target, OK, l) && FixedReport(plan, Effective(d'.cred), reported)
    ensures reported == frequency
  {
    AcceptedTarget(p, d, d', target, l);
    if frequency == 0 {
      assert 0 in Channels(AllMask()) * AllSet() && 1 in Channels(AllMask()) * AllSet();
    } else {
      var c: nat :| c < FIXED_PLAN_CHANNELS && Frequency(plan, c) == frequency && target == Some(SingleMask(c));
      FixedReportIff(plan, SingleMask(c), reported, c);
    }
  }

  lemma SingleSelects(c: nat)
    requires c < FIXED_PLAN_CHANNELS
    ensures Selects(SingleMask(c))
  {
    var words := SingleMask(c);
    forall i: nat | i < 96
      ensures Has(words, i) == (i == c)
    {
      assert i in Channels(words) <==> Has(words, i);
    }
  }

  lemma TargetIsStorable(plan: Plan, frequency: u32, target: Option<Words>)
    requires FixedTarget(plan, frequency, target)
    ensures target.Some? ==> Selects(target.value)
    ensures ValidValue(ChMask, BytesOf(if target.Some? then target.value else ZERO_MASK))
  {
    ZeroHasNone();
    WordsOfBytesOf(if target.Some? then target.value else ZERO_MASK);
    if target.Some? {
      var c: nat :| c < FIXED_PLAN_CHANNELS && target == Some(SingleMask(c));
      SingleSelects(c);
    }
  }

  /** A selection within the plan, or none, fails only on a failing load, a running join or a flash failure. */
  lemma StorableIsStored(p: Env, d: Device, d': Device, target: Option<Words>, rc: int, l: Loading)
    requires SetMaskSpec(p, d, d', target, rc, l) && l.rc == OK && !d.cred.joinActive && !l.faulted
    requires target.Some? ==> Selects(target.value)
    requires ValidValue(ChMask, BytesOf(if target.Some? then target.value else ZERO_MASK))
    ensures rc == OK
  {
  }

  /** What a fixed-channel request does once its plan is found. */
  ghost predicate FixedSpec(p: Env, plan: Plan, d: Device, d': Device, frequency: u32, target: Option<Words>,
                            rc: int, l: Loading) {
    if frequency == 0 || OnPlan(plan, frequency) then
      FixedTarget(plan, frequency, target) && SetMaskSpec(p, d, d', target, rc, l)
    else rc == ERR_INVALID && d' == d
  }

  /** Unless the load or flash fails or a join runs, a frequency is accepted exactly when it is 0 or on the plan. */
  lemma FixedChannelAcceptedIff(p: Env, plan: Plan, d: Device, d': Device, frequency: u32, target: Option<Words>,
                                rc: int, l: Loading)
    requires FixedSpec(p, plan, d, d', frequency, target, rc, l)
    requires l.rc == OK && !d.cred.joinActive && !l.faulted
    ensures rc == OK <==> frequency == 0 || OnPlan(plan, frequency)
  {
    if frequency == 0 || OnPlan(plan, frequency) {
      TargetIsStorable(plan, frequency, target);
      StorableIsStored(p, d, d', target, rc, l);
    }
  }

  lemma BootIsSynced(p: Env, d: Device, booted: Device)
    requires Synced(p, d) && RebootDeviceSpec(d, booted)
    ensures Synced(p, booted) && ViewOf(p, booted.settings.store) == ViewOf(p, d.settings.store)
  {
  }

  /** The effective mask of a loaded device survives a reboot and the next load. */
  lemma SelectionSurvivesReboot(p: Env, d: Device, booted: Device, l: Loading)
    requires Synced(p, d) && d.cred.loaded && RebootDeviceSpec(d, booted)
    requires EnsureLoaded(p, booted, l) && l.rc == OK
    ensures Effective(l.mid.cred) == Effective(d.cred)
  {
    BootIsSynced(p, d, booted);
    LoadKeepsSync(p, booted, l);
  }
}
