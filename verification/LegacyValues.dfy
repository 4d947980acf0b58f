/** What an upgraded device reads: the values older firmware has left, under the names it left them. */
module LegacyValues {
  import opened Errors
  import opened Bytes
  import opened Record
  import opened Settings
  import opened SettingsRuns

  // ----- One key, two names -----

  /** Without a flash failure the stored bytes of a key are its value, or refused for their size or content. */
  ghost predicate ReadsAs(k: Key, stored: seq<byte>, rc: int, value: seq<byte>, found: bool, faulted: bool) {
    && (rc == OK ==> value == stored && found && |stored| == Size(k) && ValidValue(k, stored))
    && (!faulted ==>
          rc == if |stored| != Size(k) then ERR_TOO_LARGE else if !ValidValue(k, stored) then ERR_BAD_MESSAGE else OK)
  }

  /** A read that has to go to flash. */
  ghost predicate FirstRead(p: Env, s: State, s': State, k: Key, rc: int, value: seq<byte>, found: bool,
                            faulted: bool) {
    Total(s.slots) && !s.slots[k].loaded && ReadSpec(p, s, s', k, Size(k), rc, value, found, faulted)
  }

  /** The current name wins, whatever the legacy name holds, and flash stays as it is. */
  lemma CurrentValueWins(p: Env, s: State, s': State, k: Key, rc: int, value: seq<byte>, found: bool, faulted: bool)
    requires FirstRead(p, s, s', k, rc, value, found, faulted) && k != JoinPolicy
    requires Stored(s.store, Name(Lorawan, k)) != []
    ensures ReadsAs(k, Stored(s.store, Name(Lorawan, k)), rc, value, found, faulted) && s'.store == s.store
  {
  }

  /** Without a current value the legacy one is found, and a read that returns it leaves it under the current name. */
  lemma LegacyValueIsFound(p: Env, s: State, s': State, k: Key, rc: int, value: seq<byte>, found: bool, faulted: bool)
    requires FirstRead(p, s, s', k, rc, value, found, faulted) && k != JoinPolicy
    requires Stored(s.store, Name(Lorawan, k)) == [] && Stored(s.store, Name(Rzi, k)) != []
    ensures ReadsAs(k, Stored(s.store, Name(Rzi, k)), rc, value, found, faulted)
    ensures rc == OK ==> Stored(s'.store, Name(Lorawan, k)) == Stored(s.store, Name(Rzi, k))
    ensures rc != OK ==> s' == s
    ensures forall n: Name | n != Name(Lorawan, k) :: Stored(s'.store, n) == Stored(s.store, n)
  {
  }

  /** Only with neither is a plain key its default, and that is not stored. */
  lemma NoValueIsDefault(p: Env, s: State, s': State, k: Key, rc: int, value: seq<byte>, found: bool, faulted: bool)
    requires FirstRead(p, s, s', k, rc, value, found, faulted) && k != JoinPolicy && k != Region
    requires Stored(s.store, Name(Lorawan, k)) == [] && Stored(s.store, Name(Rzi, k)) == []
    ensures s'.store == s.store && (rc == OK ==> value == Default(k) && !found) && (rc != OK ==> faulted)
  {
  }

  // ----- The region -----

  /** The band number AT+BAND answers for a region, as the AT commands compute it on their own. */
  function BandOf(region: byte): nat {
    match region
    case 3 => 1
    case 10 => 2
    case 8 => 3
    case 0 => 4
    case 1 => 5
    case 2 => 6
    case 9 => 7
    case 4 => 8
    case 5 => 9
    case 6 => 10
    case 7 => 11
    case _ => 4
  }

  /**
   * A device that held only the old band number has the region of that number: AT+BAND answers the number it
   * answered before the upgrade. Numbers outside 1 to 11 are refused.
   */
  lemma BandSurvivesUpgrade(p: Env, s: State, s': State, rc: int, value: seq<byte>, found: bool, faulted: bool)
    requires FirstRead(p, s, s', Region, rc, value, found, faulted)
    requires Stored(s.store, Name(Lorawan, Region)) == [] && Stored(s.store, Name(Rzi, Region)) == []
    ensures var band := Stored(s.store, Name(Rzi, Band));
            if band == [] then rc == OK ==> value == [REGION_EU_868] && !found && s'.store == s.store
            else
              && (rc == OK ==> |band| == 1 && 1 <= band[0] <= 11 && |value| == 1 && BandOf(value[0]) == band[0]
                               && found && Stored(s'.store, Name(Lorawan, Region)) == value)
              && (!faulted ==> rc == if |band| != 1 then ERR_TOO_LARGE
                                     else if 1 <= band[0] <= 11 then OK else ERR_BAD_MESSAGE)
  {
    assert Default(Region) == [REGION_EU_868];
  }

  // ----- The join policy -----

  /** A byte of a split policy: the current name, else the legacy name, else a default. */
  ghost predicate SplitByte(store: Store, k: Key, default: byte, b: byte) {
    var current, legacy := Stored(store, Name(Lorawan, k)), Stored(store, Name(Rzi, k));
    [b] == if current != [] then current else if legacy != [] then legacy else [default]
  }

  ghost predicate AnySplit(store: Store) {
    exists n: Name :: IsSplit(n.key) && Stored(store, n) != []
  }

  lemma SplitByteIs(store: Store, k: Key, default: byte)
    requires IsSplit(k) && Default(k) == [default] && ResolvePlain(store, k).Value?
    ensures var o := ResolvePlain(store, k);
            && |o.value| == 1 && SplitByte(store, k, default, o.value[0])
            && (o.found <==> Stored(store, Name(Lorawan, k)) != [] || Stored(store, Name(Rzi, k)) != [])
  {
  }

  /** Without a record the policy is auto-join, interval and attempts, each under either of its names. */
  lemma SplitPolicyIsFound(p: Env, s: State, s': State, rc: int, value: seq<byte>, found: bool, faulted: bool)
    requires FirstRead(p, s, s', JoinPolicy, rc, value, found, faulted) && rc == OK
    requires Stored(s.store, Name(Lorawan, JoinPolicy)) == []
    ensures |value| == 3 && (found <==> AnySplit(s.store))
    ensures SplitByte(s.store, AutoJoin, 0, value[0]) && SplitByte(s.store, JoinInterval, 8, value[1])
    ensures SplitByte(s.store, JoinAttempts, 0, value[2])
    ensures if found then
              Decode(p.crc, p.recordMax, 3, Stored(s'.store, Name(Lorawan, JoinPolicy))) == Accepted(1, value)
            else s'.store == s.store
  {
    SplitBytes(p, s.store, value, found);
    MigratedRecord(p, s, s', value, found, faulted);
  }

  lemma SplitBytes(p: Env, store: Store, value: seq<byte>, found: bool)
    requires Stored(store, Name(Lorawan, JoinPolicy)) == [] && Resolve(p, store, JoinPolicy) == Value(value, found)
    ensures |value| == 3 && (found <==> AnySplit(store))
    ensures SplitByte(store, AutoJoin, 0, value[0]) && SplitByte(store, JoinInterval, 8, value[1])
    ensures SplitByte(store, JoinAttempts, 0, value[2])
  {
    assert Default(AutoJoin) == [0] && Default(JoinInterval) == [8] && Default(JoinAttempts) == [0];
    RecordlessPolicy(p, store);
    SplitByteIs(store, AutoJoin, 0);
    SplitByteIs(store, JoinInterval, 8);
    SplitByteIs(store, JoinAttempts, 0);
    FoundNames(store);
  }

  lemma MigratedRecord(p: Env, s: State, s': State, value: seq<byte>, found: bool, faulted: bool)
    requires FirstRead(p, s, s', JoinPolicy, OK, value, found, faulted)
    requires Stored(s.store, Name(Lorawan, JoinPolicy)) == []
    ensures if found then
              |value| == 3
              && Decode(p.crc, p.recordMax, 3, Stored(s'.store, Name(Lorawan, JoinPolicy))) == Accepted(1, value)
            else s'.store == s.store
  {
    PolicyIsSound(p, s.store);
    if found {
      DecodeEncode(p.crc, p.recordMax, 3, POLICY_VERSION, value);
      assert Stored(s'.store, Name(Lorawan, JoinPolicy)) == Encode(p.crc, POLICY_VERSION, value);
    }
  }

  /** What a split key holds under either name is nothing, or one byte in its range. */
  ghost predicate SplitFits(store: Store, k: Key)
    requires IsSplit(k)
  {
    var current, legacy := Stored(store, Name(Lorawan, k)), Stored(store, Name(Rzi, k));
    var chosen := if current != [] then current else legacy;
    chosen == [] || (|chosen| == 1 && (k == AutoJoin ==> chosen[0] <= 1) && (k == JoinInterval ==> chosen[0] >= 7))
  }

  lemma SplitReadsIff(store: Store, k: Key)
    requires IsSplit(k)
    ensures ResolvePlain(store, k).Value? <==> SplitFits(store, k)
  {
  }

  /** Without a flash failure a split policy is read exactly when each of its keys holds nothing or a proper byte. */
  lemma SplitPolicyReadsIff(p: Env, s: State, s': State, rc: int, value: seq<byte>, found: bool)
    requires FirstRead(p, s, s', JoinPolicy, rc, value, found, false)
    requires Stored(s.store, Name(Lorawan, JoinPolicy)) == []
    ensures rc == OK
       <==> SplitFits(s.store, AutoJoin) && SplitFits(s.store, JoinInterval) && SplitFits(s.store, JoinAttempts)
  {
    SplitReadsIff(s.store, AutoJoin);
    SplitReadsIff(s.store, JoinInterval);
    SplitReadsIff(s.store, JoinAttempts);
    DecodeCharacterised(p.crc, p.recordMax, 3, []);
  }

  lemma RecordlessPolicy(p: Env, store: Store)
    requires Stored(store, Name(Lorawan, JoinPolicy)) == [] && Resolve(p, store, JoinPolicy).Value?
    ensures var o, a, b, c := Resolve(p, store, JoinPolicy), ResolvePlain(store, AutoJoin),
                              ResolvePlain(store, JoinInterval), ResolvePlain(store, JoinAttempts);
            && a.Value? && b.Value? && c.Value?
            && o == Value(a.value + b.value + c.value, a.found || b.found || c.found)
  {
    DecodeCharacterised(p.crc, p.recordMax, 3, []);
  }

  lemma FoundNames(store: Store)
    ensures AnySplit(store)
       <==> || Stored(store, Name(Lorawan, AutoJoin)) != [] || Stored(store, Name(Rzi, AutoJoin)) != []
            || Stored(store, Name(Lorawan, JoinInterval)) != [] || Stored(store, Name(Rzi, JoinInterval)) != []
            || Stored(store, Name(Lorawan, JoinAttempts)) != [] || Stored(store, Name(Rzi, JoinAttempts)) != []
  {
    if n: Name :| IsSplit(n.key) && Stored(store, n) != [] {
      match n.ns
      case Lorawan => assert n == Name(Lorawan, n.key);
      case Rzi => assert n == Name(Rzi, n.key);
    }
    assert IsSplit(AutoJoin) && IsSplit(JoinInterval) && IsSplit(JoinAttempts);
  }

  /** A record of the current version wins over the split keys, and one of another version is refused. */
  lemma RecordWins(p: Env, s: State, s': State, version: u16, payload: seq<byte>,
                   rc: int, value: seq<byte>, found: bool, faulted: bool)
    requires FirstRead(p, s, s', JoinPolicy, rc, value, found, faulted)
    requires Decode(p.crc, p.recordMax, 3, Stored(s.store, Name(Lorawan, JoinPolicy))) == Accepted(version, payload)
    ensures s'.store == s.store && (rc == OK ==> version == 1 && value == payload && found)
    ensures !faulted ==>
              rc == if version != 1 then ERR_NOT_SUPPORTED
                    else if |payload| != 3 || payload[0] > 1 || payload[1] < 7 then ERR_BAD_MESSAGE else OK
  {
    DecodeCharacterised(p.crc, p.recordMax, 3, Stored(s.store, Name(Lorawan, JoinPolicy)));
  }

  // ----- Over runs -----

  /**
   * Once read, a legacy value is the value of its key: across reboots, flash failures and any activity that neither
   * writes the key nor clears, every later read answers it from the current name.
   */
  lemma MigratedValueStays(p: Env, s: State, first: Transition, rest: seq<Transition>, again: Transition, k: Key)
    requires Coherent(p, s) && !s.slots[k].loaded && k != JoinPolicy
    requires Stored(s.store, Name(Lorawan, k)) == [] && Stored(s.store, Name(Rzi, k)) != []
    requires first.event.Read? && first.event.key == k && first.event.size == Size(k) && first.event.rc == OK
    requires Run(p, s, [first]) && Run(p, first.state, rest) && forall t | t in rest :: LeavesAlone(k, t.event)
    requires again.event.Read? && again.event.key == k && again.event.rc == OK
    requires Run(p, EndState(first.state, rest), [again])
    ensures first.event.value == again.event.value == Stored(s.store, Name(Rzi, k))
    ensures first.event.found && again.event.found
  {
    var e := first.event;
    LegacyValueIsFound(p, s, first.state, k, OK, e.value, e.found, e.faulted);
    ReadAnswersAgain(p, s, first, rest, again, k);
  }

  /** The answer of a read is the answer of every later one. */
  lemma ReadAnswersAgain(p: Env, s: State, first: Transition, rest: seq<Transition>, again: Transition, k: Key)
    requires Coherent(p, s)
    requires first.event.Read? && first.event.key == k && first.event.size == Size(k) && first.event.rc == OK
    requires Run(p, s, [first]) && Run(p, first.state, rest) && forall t | t in rest :: LeavesAlone(k, t.event)
    requires again.event.Read? && again.event.key == k && again.event.rc == OK
    requires Run(p, EndState(first.state, rest), [again])
    ensures again.event.value == first.event.value && again.event.found == first.event.found
  {
    ReadStaysCoherent(p, s, first.event, first.state);
    assert SlotCoherent(p, first.state.store, k, first.state.slots[k]);
    MeaningStays(p, first.state, rest, k);
    var last := EndState(first.state, rest);
    assert SlotCoherent(p, last.store, k, last.slots[k]);
  }

  /** A device from boot: the split policy is read once, and from then on a record holds it. */
  lemma MigratedPolicyStays(p: Env, s: State, first: Transition, rest: seq<Transition>, again: Transition)
    requires Coherent(p, s) && !s.slots[JoinPolicy].loaded && Stored(s.store, Name(Lorawan, JoinPolicy)) == []
    requires first.event.Read? && first.event.key == JoinPolicy && first.event.size == 3 && first.event.rc == OK
    requires Run(p, s, [first]) && Run(p, first.state, rest) && forall t | t in rest :: LeavesAlone(JoinPolicy, t.event)
    requires again.event.Read? && again.event.key == JoinPolicy && again.event.rc == OK
    requires Run(p, EndState(first.state, rest), [again])
    ensures |again.event.value| == 3 && (again.event.found <==> AnySplit(s.store))
    ensures SplitByte(s.store, AutoJoin, 0, again.event.value[0])
    ensures SplitByte(s.store, JoinInterval, 8, again.event.value[1])
    ensures SplitByte(s.store, JoinAttempts, 0, again.event.value[2])
  {
    var e := first.event;
    SplitPolicyIsFound(p, s, first.state, OK, e.value, e.found, e.faulted);
    ReadAnswersAgain(p, s, first, rest, again, JoinPolicy);
  }

  // ----- What a key accepts -----

  /** A write without a flash failure is accepted for these values and refused untouched for all others. */
  lemma AcceptedIff(p: Env, s: State, s': State, k: Key, value: seq<byte>, rc: int)
    requires Total(s.slots) && WriteSpec(p, s, s', k, value, rc, false)
    ensures rc == OK || (rc == ERR_INVALID && s' == s)
    ensures k == Cfm ==> (rc == OK <==> |value| == 1 && value[0] <= 1)
    ensures k == Rety ==> (rc == OK <==> |value| == 1 && value[0] <= 7)
    ensures k == NetId ==> (rc == OK <==> |value| == 4 && value[3] == 0)
    ensures k == Region ==> (rc == OK <==> |value| == 1 && value[0] <= REGION_RU_864)
    ensures k == JoinPolicy ==> (rc == OK <==> |value| == 3 && value[0] <= 1 && value[1] >= 7)
    ensures rc == OK ==> Resolve(p, s'.store, k) == Value(value, true) || SkipsSave(s, k, value)
  {
    if rc == OK && !SkipsSave(s, k, value) {
      SavedResolves(p, s.store, k, value);
    }
    if |value| == 4 {
      NetIdFits(value);
    }
  }

  lemma NetIdFits(value: seq<byte>)
    requires |value| == 4
    ensures GetLe32(value) <= 0xffffff <==> value[3] == 0
  {
  }

  /** Neither region nor any shared setting is found on a device that holds nothing. */
  lemma FactoryValues()
    ensures Default(Region) == [REGION_EU_868] && Default(Cfm) == [0] && Default(Rety) == [0]
    ensures Default(NetId) == [0, 0, 0, 0] && Default(JoinPolicy) == [0, 8, 0] && Default(Njm) == [1]
  {
  }
}
