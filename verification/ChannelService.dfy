/** The channel file as written: word arrays filled by loops, and the public calls over the credential store. */
module ChannelService {
  import opened Options
  import opened Errors
  import opened Bytes
  import opened ChannelMask
  import opened Credentials
  import opened ChannelPlan
  import CredentialService

  /** The words of an array of six. */
  ghost function WordsIn(mask: array<u16>): Words
    requires mask.Length == WORDS
    reads mask
  {
    mask[..]
  }

  method PutChannel(mask: array<u16>, channel: nat)
    requires mask.Length == WORDS && channel < 96
    modifies mask
    ensures WordsIn(mask) == Put(old(WordsIn(mask)), channel)
  {
    ghost var before := WordsIn(mask);
    Pow2Of16();
    SetBitBound(mask[channel / 16], channel % 16, 16);
    mask[channel / 16] := SetBit(mask[channel / 16], channel % 16);
    assert mask[..] == before[channel / 16 := mask[channel / 16]];
  }

  method ClearWords(mask: array<u16>)
    requires mask.Length == WORDS
    modifies mask
    ensures WordsIn(mask) == ZERO_MASK
  {
    for i := 0 to WORDS
      invariant forall j | 0 <= j < i :: mask[j] == 0
    {
      mask[i] := 0;
    }
  }

  /** A zeroed array with the given words copied in. */
  method Copied(words: seq<u16>) returns (mask: array<u16>)
    requires |words| <= WORDS
    ensures fresh(mask) && mask.Length == WORDS && WordsIn(mask) == Padded(words)
  {
    mask := new u16[WORDS](_ => 0);
    for i := 0 to |words|
      invariant mask[..i] == words[..i] && forall j | i <= j < WORDS :: mask[j] == 0
    {
      mask[i] := words[i];
    }
    assert mask[..] == Padded(words);
  }

  /** The first words of an array, and zeros beyond it. */
  method CopiedOut(current: array<u16>, words: nat) returns (mask: seq<u16>)
    requires current.Length == WORDS
    ensures |mask| == words && forall i | 0 <= i < words :: mask[i] == if i < WORDS then WordsIn(current)[i] else 0
  {
    mask := [];
    for word := 0 to words
      invariant |mask| == word
      invariant forall i | 0 <= i < word :: mask[i] == if i < WORDS then current[i] else 0
    {
      mask := mask + [if word < WORDS then current[word] else 0];
    }
  }

  method AllChannels(mask: array<u16>)
    requires mask.Length == WORDS
    modifies mask
    ensures WordsIn(mask) == AllMask()
  {
    ClearWords(mask);
    for channel := 0 to FIXED_PLAN_CHANNELS
      invariant WordsIn(mask) == PutRange(ZERO_MASK, 0, channel)
    {
      PutChannel(mask, channel);
    }
  }

  method SubBandChannels(band: nat, mask: array<u16>)
    requires mask.Length == WORDS && 1 <= band <= SUB_BANDS
    modifies mask
    ensures WordsIn(mask) == BandMask(band)
  {
    var first := (band - 1) * 8;
    ClearWords(mask);
    for channel := first to first + 8
      invariant WordsIn(mask) == PutRange(ZERO_MASK, first, channel - first)
    {
      PutChannel(mask, channel);
    }
    PutChannel(mask, FIXED_PLAN_WIDE + band - 1);
  }

  method SameMask(a: array<u16>, b: array<u16>) returns (same: bool)
    requires a.Length == WORDS && b.Length == WORDS
    ensures same == (WordsIn(a) == WordsIn(b))
  {
    for i := 0 to WORDS
      invariant a[..i] == b[..i]
    {
      if a[i] != b[i] {
        assert WordsIn(a)[i] != WordsIn(b)[i];
        return false;
      }
    }
    return true;
  }

  method FrequencyChannel(plan: Plan, frequency: u32) returns (channel: int)
    ensures if OnPlan(plan, frequency) then 0 <= channel < FIXED_PLAN_CHANNELS && Frequency(plan, channel) == frequency
            else channel == ERR_INVALID
  {
    for c := 0 to FIXED_PLAN_CHANNELS
      invariant forall b: nat | b < c :: Frequency(plan, b) != frequency
    {
      if Frequency(plan, c) == frequency {
        return c;
      }
    }
    return ERR_INVALID;
  }

  /** Compares with the mask of all channels, or of one sub-band. */
  method IsSelection(current: array<u16>, band: nat) returns (same: bool)
    requires current.Length == WORDS && band <= SUB_BANDS
    ensures same == (Channels(WordsIn(current)) == if band == 0 then AllSet() else BandSet(band))
  {
    var candidate := new u16[WORDS];
    if band == 0 {
      AllChannels(candidate);
    } else {
      SubBandChannels(band, candidate);
    }
    same := SameMask(current, candidate);
    OnlyMask(WordsIn(current), WordsIn(candidate));
  }

  /** Which sub-band, if any, a mask is. */
  method MatchSubBand(current: array<u16>) returns (rc: int, band: nat)
    requires current.Length == WORDS
    ensures BandReport(WordsIn(current), rc, band)
  {
    var same := IsSelection(current, 0);
    if same {
      return OK, 0;
    }
    for b := 1 to SUB_BANDS + 1
      invariant forall a | 1 <= a < b :: Channels(WordsIn(current)) != BandSet(a)
    {
      same := IsSelection(current, b);
      if same {
        return OK, b;
      }
    }
    return ERR_NO_DATA, 0;
  }

  lemma OnlyMask(a: Words, b: Words)
    ensures Channels(a) == Channels(b) <==> a == b
  {
    if Channels(a) == Channels(b) {
      EqualChannels(a, b);
    }
  }

  /** The enabled channels below a bound. */
  ghost function Below(mask: Words, n: nat): set<nat>
    requires n <= FIXED_PLAN_CHANNELS
  {
    set c: nat | c < n && Has(mask, c)
  }

  lemma BelowGrows(mask: Words, n: nat)
    requires n < FIXED_PLAN_CHANNELS
    ensures Below(mask, n + 1) == if Has(mask, n) then Below(mask, n) + {n} else Below(mask, n)
  {
  }

  /** The last channel of a mask and how many it has. */
  method CountChannels(current: Words) returns (found: nat, count: nat)
    ensures count == |Channels(current) * AllSet()|
    ensures count == 1 ==> found < FIXED_PLAN_CHANNELS && Channels(current) * AllSet() == {found}
  {
    found, count := 0, 0;
    assert Below(current, 0) == {};
    for channel := 0 to FIXED_PLAN_CHANNELS
      invariant count == |Below(current, channel)|
      invariant count > 0 ==> found < channel && found in Below(current, channel)
      invariant count == 1 ==> Below(current, channel) == {found}
    {
      BelowGrows(current, channel);
      if Has(current, channel) {
        found := channel;
        count := count + 1;
      }
    }
    assert Below(current, FIXED_PLAN_CHANNELS) == Channels(current) * AllSet();
  }

  method FixedFrequency(plan: Plan, current: Words) returns (frequency: nat)
    ensures FixedReport(plan, current, frequency)
  {
    var found, count := CountChannels(current);
    if c: nat :| c < FIXED_PLAN_CHANNELS && Channels(current) * AllSet() == {c} {
      assert count == 1;
    }
    frequency := if count == 1 then Frequency(plan, found) else 0;
  }

  class Api {
    const store: CredentialService.Service

    constructor (store: CredentialService.Service)
      ensures this.store == store
    {
      this.store := store;
    }

    /** The region read and the plan check that open every call. */
    method FindPlan() returns (rc: int, plan: Plan, ghost k: Lookup)
      requires store.Valid()
      modifies store, store.svc
      ensures store.Valid() && PlanSpec(store.svc.p, store.caps, old(store.Now()), k)
      ensures k.rc == rc && k.located == store.Now()
      ensures rc == OK ==> PlanFor(store.region, store.caps) == Some(plan)
    {
      plan := Plan(0, 0);
      var region;
      ghost var read, regionRc;
      rc, region, read := store.GetRegion();
      regionRc := rc;
      if rc == OK {
        var found := PlanFor(region, store.caps);
        rc := if found.None? then ERR_NOT_SUPPORTED else OK;
        plan := if found.None? then plan else found.value;
      }
      k := Lookup(rc, regionRc, read, store.Now());
    }

    method ReadMask() returns (rc: int, current: array<u16>, ghost l: Loading)
      requires store.Valid()
      modifies store, store.svc
      ensures store.Valid() && EnsureLoaded(store.svc.p, old(store.Now()), l) && l.rc == rc && l.mid == store.Now()
      ensures fresh(current) && current.Length == WORDS && (rc == OK ==> WordsIn(current) == Effective(store.cred))
    {
      current := new u16[WORDS](_ => 0);
      l, rc := store.EnsureLoaded();
      if rc == OK {
        if store.cred.maskSet {
          current := Copied(store.cred.mask);
          assert Padded(store.cred.mask) == store.cred.mask;
        } else {
          AllChannels(current);
        }
      }
    }

    /** The full mask is stored as no restriction. */
    method StoreMask(mask: array<u16>) returns (rc: int, ghost l: Loading)
      requires store.Valid() && mask.Length == WORDS
      modifies store, store.svc
      ensures store.Valid()
      ensures SetMaskSpec(store.svc.p, old(store.Now()), store.Now(), Canonical(old(WordsIn(mask))), rc, l)
    {
      var full := new u16[WORDS];
      AllChannels(full);
      var same := SameMask(mask, full);
      var words: Words := mask[..];
      rc, l := store.SetChannelMask(if same then None else Some(words));
    }

    /** `words` is the capacity of the caller's array; what is beyond the six words of the store is zero. */
    method GetChannelMask(words: nat) returns (rc: int, mask: seq<u16>, ghost k: Lookup, ghost l: Loading)
      requires store.Valid()
      modifies store, store.svc
      ensures words == 0 ==> rc == ERR_INVALID && store.Now() == old(store.Now())
      ensures words > 0 && k.rc == OK && words < FIXED_PLAN_WORDS ==>
                PlanSpec(store.svc.p, store.caps, old(store.Now()), k) && rc == ERR_INVALID && store.Now() == k.located
      ensures words > 0 && (k.rc != OK || words >= FIXED_PLAN_WORDS) ==>
                ViewSpec(store.svc.p, store.caps, old(store.Now()), store.Now(), k, l, rc)
      ensures rc == OK ==> |mask| == words >= FIXED_PLAN_WORDS
                           && forall i | 0 <= i < words :: mask[i] == if i < WORDS then Effective(store.cred)[i] else 0
    {
      mask, k := [], Lookup(OK, OK, CredentialService.NO_EVENT, store.Now());
      l := Loading(OK, [], NO_REPLIES, store.Now(), false);
      if words == 0 {
        return ERR_INVALID, mask, k, l;
      }
      var plan;
      rc, plan, k := FindPlan();
      if rc != OK {
        return;
      }
      if words < FIXED_PLAN_WORDS {
        rc := ERR_INVALID;
        return;
      }
      var current;
      rc, current, l := ReadMask();
      if rc == OK {
        mask := CopiedOut(current, words);
      }
    }

    method SetChannelMask(mask: seq<u16>) returns (rc: int, ghost k: Lookup, ghost l: Loading)
      requires store.Valid()
      modifies store, store.svc
      ensures mask == [] || |mask| > WORDS ==> rc == ERR_INVALID && store.Now() == old(store.Now())
      ensures 0 < |mask| <= WORDS ==>
                SelectSpec(store.svc.p, store.caps, old(store.Now()), store.Now(), k, |mask| >= FIXED_PLAN_WORDS,
                           Canonical(Padded(mask)), rc, l)
    {
      k, l := Lookup(OK, OK, CredentialService.NO_EVENT, store.Now()), Loading(OK, [], NO_REPLIES, store.Now(), false);
      if mask == [] || |mask| > WORDS {
        return ERR_INVALID, k, l;
      }
      var plan;
      rc, plan, k := FindPlan();
      if rc != OK {
        return;
      }
      if |mask| < FIXED_PLAN_WORDS {
        rc := ERR_INVALID;
        return;
      }
      var requested := Copied(mask);
      rc, l := StoreMask(requested);
    }

    method GetSubBand() returns (rc: int, band: nat, ghost k: Lookup, ghost l: Loading, ghost viewed: int)
      requires store.Valid()
      modifies store, store.svc
      ensures ViewSpec(store.svc.p, store.caps, old(store.Now()), store.Now(), k, l, viewed)
      ensures if viewed != OK then rc == viewed else BandReport(Effective(store.cred), rc, band)
    {
      band, l := 0, Loading(OK, [], NO_REPLIES, store.Now(), false);
      var plan;
      rc, plan, k := FindPlan();
      viewed := rc;
      if rc != OK {
        return;
      }
      var current;
      rc, current, l := ReadMask();
      viewed := rc;
      if rc == OK {
        rc, band := MatchSubBand(current);
      }
    }

    method SetSubBand(band: byte) returns (rc: int, ghost k: Lookup, ghost l: Loading)
      requires store.Valid()
      modifies store, store.svc
      ensures SelectSpec(store.svc.p, store.caps, old(store.Now()), store.Now(), k, band <= SUB_BANDS,
                         if 1 <= band <= SUB_BANDS then Canonical(BandMask(band)) else None, rc, l)
    {
      l := Loading(OK, [], NO_REPLIES, store.Now(), false);
      var plan;
      rc, plan, k := FindPlan();
      if rc != OK {
        return;
      }
      if band > SUB_BANDS {
        rc := ERR_INVALID;
      } else if band == 0 {
        rc, l := store.SetChannelMask(None);
      } else {
        var requested := new u16[WORDS];
        SubBandChannels(band, requested);
        rc, l := StoreMask(requested);
      }
    }

    method GetFixedChannel() returns (rc: int, frequency: nat, ghost k: Lookup, ghost l: Loading)
      requires store.Valid()
      modifies store, store.svc
      ensures ViewSpec(store.svc.p, store.caps, old(store.Now()), store.Now(), k, l, rc)
      ensures rc == OK ==> var plan := PlanFor(k.located.region, store.caps);
                           plan.Some? && FixedReport(plan.value, Effective(store.cred), frequency)
    {
      frequency, l := 0, Loading(OK, [], NO_REPLIES, store.Now(), false);
      var plan;
      rc, plan, k := FindPlan();
      if rc != OK {
        return;
      }
      var current;
      rc, current, l := ReadMask();
      if rc == OK {
        frequency := FixedFrequency(plan, current[..]);
      }
    }

    /** Accepts 0 and the frequencies of the plan, and no other. */
    method SetFixedChannel(frequency: u32)
        returns (rc: int, ghost k: Lookup, ghost l: Loading, ghost target: Option<Words>)
      requires store.Valid()
      modifies store, store.svc
      ensures PlanSpec(store.svc.p, store.caps, old(store.Now()), k)
      ensures k.rc != OK ==> rc == k.rc && store.Now() == k.located
      ensures k.rc == OK ==>
                var plan := PlanFor(k.located.region, store.caps);
                plan.Some? && FixedSpec(store.svc.p, plan.value, k.located, store.Now(), frequency, target, rc, l)
      ensures k.rc == OK && l.rc == OK && !old(store.cred.joinActive) && !l.faulted ==>
                var plan := PlanFor(k.located.region, store.caps);
                plan.Some? && (rc == OK <==> frequency == 0 || OnPlan(plan.value, frequency))
    {
      l, target := Loading(OK, [], NO_REPLIES, store.Now(), false), None;
      var plan;
      rc, plan, k := FindPlan();
      if rc != OK {
        return;
      }
      if frequency == 0 {
        rc, l := store.SetChannelMask(None);
      } else {
        var channel := FrequencyChannel(plan, frequency);
        if channel < 0 {
          rc := channel;
        } else {
          var requested := new u16[WORDS];
          ClearWords(requested);
          PutChannel(requested, channel);
          target := Some(SingleMask(channel));
          var words: Words := requested[..];
          rc, l := store.SetChannelMask(Some(words));
        }
      }
      if l.rc == OK && !old(store.cred.joinActive) && !l.faulted {
        FixedChannelAcceptedIff(store.svc.p, plan, k.located, store.Now(), frequency, target, rc, l);
      }
    }
  }
}
