/**
 * The settings schema, its write-through cache and the lazy migration from the legacy layouts.
 *
 * Flash is a map whose reads, writes and deletes may fail at any time but never half-way. A failing
 * access reports some negative code other than "not found"; "not found" is always the truth.
 */
module Settings {
  import opened Errors
  import opened Bytes
  import opened Record
  import opened ChannelMask

  datatype Namespace = Lorawan | Rzi

  /** Every row of the settings table; the last four exist only in legacy layouts. */
  datatype Key =
    | DevEui | JoinEui | AppKey | GenAppKey | DevAddr | NwkSKey | AppSKey | Njm | ChMask
    | Region | Cfm | Rety | NetId | JoinPolicy | AutoJoin | JoinInterval | JoinAttempts | Band

  datatype Name = Name(ns: Namespace, key: Key)

  type Store = map<Name, seq<byte>>

  datatype Kind =
    | BYTES | BOOLEAN | RETRIES | REGION | ACTIVATION | NET_ID | CHANNEL_MASK | INTERVAL | JOIN_POLICY

  datatype Schema = Schema(size: nat, kind: Kind, first: byte)

  datatype Platform = Platform(crc: Crc, recordMax: nat)
  type Env = p: Platform | ValidMax(p.recordMax) witness Platform((_, _) => 0, 16)

  const JOIN_INTERVAL_MIN: byte := 7
  const JOIN_INTERVAL_DEFAULT: byte := 8
  const REGION_EU_868: byte := 0
  const REGION_US_915: byte := 1
  const REGION_AU_915: byte := 2
  const REGION_RU_864: byte := 10
  const POLICY_VERSION: u16 := 1

  /** Legacy `band` numbers, mapped to regions; band 0 is not accepted. */
  const BANDS: seq<byte> := [0, 3, 10, 8, 0, 1, 2, 9, 4, 5, 6, 7]

  const TABLE: seq<Key> :=
    [DevEui, JoinEui, AppKey, GenAppKey, DevAddr, NwkSKey, AppSKey, Njm, ChMask,
     Region, Cfm, Rety, NetId, JoinPolicy, AutoJoin, JoinInterval, JoinAttempts, Band]

  const NAMESPACES: seq<Namespace> := [Lorawan, Rzi]

  const SPLIT_KEYS: seq<Key> := [AutoJoin, JoinInterval, JoinAttempts]

  /** Position of a key in the settings table. */
  function Row(k: Key): (i: nat)
    ensures i < |TABLE| && TABLE[i] == k
  {
    match k
    case DevEui => 0
    case JoinEui => 1
    case AppKey => 2
    case GenAppKey => 3
    case DevAddr => 4
    case NwkSKey => 5
    case AppSKey => 6
    case Njm => 7
    case ChMask => 8
    case Region => 9
    case Cfm => 10
    case Rety => 11
    case NetId => 12
    case JoinPolicy => 13
    case AutoJoin => 14
    case JoinInterval => 15
    case JoinAttempts => 16
    case Band => 17
  }

  lemma EveryKeyHasARow()
    ensures forall k: Key :: k in TABLE
  {
    forall k: Key
      ensures k in TABLE
    {
      assert TABLE[Row(k)] == k;
    }
  }

  lemma RowsAreDistinct(i: nat)
    requires i < |TABLE|
    ensures Row(TABLE[i]) == i
  {
  }

  function SchemaOf(k: Key): Schema {
    match k
    case DevEui => Schema(8, BYTES, 0)
    case JoinEui => Schema(8, BYTES, 0)
    case AppKey => Schema(16, BYTES, 0)
    case GenAppKey => Schema(16, BYTES, 0)
    case DevAddr => Schema(4, BYTES, 0)
    case NwkSKey => Schema(16, BYTES, 0)
    case AppSKey => Schema(16, BYTES, 0)
    case Njm => Schema(1, ACTIVATION, 1)
    case ChMask => Schema(12, CHANNEL_MASK, 0)
    case Region => Schema(1, REGION, REGION_EU_868)
    case Cfm => Schema(1, BOOLEAN, 0)
    case Rety => Schema(1, RETRIES, 0)
    case NetId => Schema(4, NET_ID, 0)
    case JoinPolicy => Schema(3, JOIN_POLICY, 0)
    case AutoJoin => Schema(1, BOOLEAN, 0)
    case JoinInterval => Schema(1, INTERVAL, JOIN_INTERVAL_DEFAULT)
    case JoinAttempts => Schema(1, BYTES, 0)
    case Band => Schema(1, BYTES, 0)
  }

  function Size(k: Key): nat {
    SchemaOf(k).size
  }

  predicate ValidValue(k: Key, v: seq<byte>)
    requires |v| == Size(k)
  {
    match SchemaOf(k).kind
    case BYTES => true
    case BOOLEAN => v[0] <= 1
    case ACTIVATION => v[0] <= 1
    case RETRIES => v[0] <= 7
    case REGION => v[0] <= REGION_RU_864
    case INTERVAL => v[0] >= JOIN_INTERVAL_MIN
    case NET_ID => GetLe32(v) <= 0xffffff
    case CHANNEL_MASK => WithinPlan(WordsOf(v))
    case JOIN_POLICY => v[0] <= 1 && v[1] >= JOIN_INTERVAL_MIN
  }

  function Default(k: Key): (v: seq<byte>)
    ensures |v| == Size(k)
  {
    var v: seq<byte> := seq(Size(k), i => if i == 0 then SchemaOf(k).first else 0);
    if SchemaOf(k).kind == JOIN_POLICY then v[1 := JOIN_INTERVAL_DEFAULT] else v
  }

  lemma DefaultIsValid(k: Key)
    ensures ValidValue(k, Default(k))
  {
    if k == ChMask {
      ZeroMaskEmpty();
      WordsOfZeros(Default(k));
      assert WordsOf(Default(k)) == ZERO_MASK;
      forall c: nat | c < 96
        ensures !Has(ZERO_MASK, c)
      {
        assert c !in Channels(ZERO_MASK);
      }
    }
  }

  // ----- The cache-free meaning of a store -----

  datatype Outcome = Value(value: seq<byte>, found: bool) | Failure(rc: int)

  /** The stored bytes of a name; an empty value counts as missing, as in the storage layer. */
  function Stored(store: Store, name: Name): seq<byte> {
    if name in store then store[name] else []
  }

  /** The current value, else the one of the legacy namespace, else the default. */
  function ResolvePlain(store: Store, k: Key): Outcome {
    var current, legacy := Stored(store, Name(Lorawan, k)), Stored(store, Name(Rzi, k));
    var v := if current != [] then current else legacy;
    if v == [] then Value(Default(k), false)
    else if |v| != Size(k) then Failure(ERR_TOO_LARGE)
    else if !ValidValue(k, v) then Failure(ERR_BAD_MESSAGE)
    else Value(v, true)
  }

  function ResolveRegion(store: Store): Outcome {
    var plain := ResolvePlain(store, Region);
    var band := Stored(store, Name(Rzi, Band));
    if plain.Failure? || plain.found || band == [] then plain
    else if |band| != 1 then Failure(ERR_TOO_LARGE)
    else if band[0] == 0 || band[0] >= |BANDS| then Failure(ERR_BAD_MESSAGE)
    else Value([BANDS[band[0]]], true)
  }

  /** The versioned record wins; without one, the three split keys are combined. */
  function ResolvePolicy(p: Env, store: Store): Outcome {
    match Decode(p.crc, p.recordMax, 3, Stored(store, Name(Lorawan, JoinPolicy)))
    case Accepted(version, payload) =>
      if version != POLICY_VERSION then Failure(ERR_NOT_SUPPORTED)
      else if |payload| != 3 || !ValidValue(JoinPolicy, payload) then Failure(ERR_BAD_MESSAGE)
      else Value(payload, true)
    case Rejected(rc) =>
      if rc != ERR_NOT_FOUND then Failure(rc)
      else
        var a, b := ResolvePlain(store, AutoJoin), ResolvePlain(store, JoinInterval);
        var c := ResolvePlain(store, JoinAttempts);
        if a.Failure? then a
        else if b.Failure? then b
        else if c.Failure? then c
        else Value(a.value + b.value + c.value, a.found || b.found || c.found)
  }

  function Resolve(p: Env, store: Store, k: Key): Outcome {
    match k
    case JoinPolicy => ResolvePolicy(p, store)
    case Region => ResolveRegion(store)
    case _ => ResolvePlain(store, k)
  }

  /** A meaning a key may have: a valid value, the default if nothing was found, or a proper error. */
  ghost predicate Sound(k: Key, o: Outcome) {
    match o
    case Value(v, found) => |v| == Size(k) && ValidValue(k, v) && (!found ==> v == Default(k))
    case Failure(rc) => IsFault(rc)
  }

  lemma PlainIsSound(store: Store, k: Key)
    ensures Sound(k, ResolvePlain(store, k))
  {
    DefaultIsValid(k);
  }

  lemma RegionIsSound(store: Store)
    ensures Sound(Region, ResolveRegion(store))
  {
    PlainIsSound(store, Region);
  }

  /** Three sound split keys make a sound policy. */
  lemma CombinedIsSound(a: Outcome, b: Outcome, c: Outcome)
    requires Sound(AutoJoin, a) && Sound(JoinInterval, b) && Sound(JoinAttempts, c)
    requires a.Value? && b.Value? && c.Value?
    ensures Sound(JoinPolicy, Value(a.value + b.value + c.value, a.found || b.found || c.found))
  {
    assert a.value + b.value + c.value == [a.value[0], b.value[0], c.value[0]];
    assert Default(JoinPolicy) == [0, JOIN_INTERVAL_DEFAULT, 0];
  }

  lemma PolicyIsSound(p: Env, store: Store)
    ensures Sound(JoinPolicy, ResolvePolicy(p, store))
  {
    var a, b, c := ResolvePlain(store, AutoJoin), ResolvePlain(store, JoinInterval), ResolvePlain(store, JoinAttempts);
    PlainIsSound(store, AutoJoin);
    PlainIsSound(store, JoinInterval);
    PlainIsSound(store, JoinAttempts);
    if a.Value? && b.Value? && c.Value? {
      CombinedIsSound(a, b, c);
    }
  }

  lemma ResolvedIsValid(p: Env, store: Store, k: Key)
    ensures Sound(k, Resolve(p, store, k))
  {
    match k
    case JoinPolicy => PolicyIsSound(p, store);
    case Region => RegionIsSound(store);
    case _ => PlainIsSound(store, k);
  }

  /** The bytes a setting is stored as. */
  function Image(p: Env, k: Key, v: seq<byte>): seq<byte>
    requires |v| == Size(k)
  {
    if k == JoinPolicy then Encode(p.crc, POLICY_VERSION, v) else v
  }

  function Saved(p: Env, store: Store, k: Key, v: seq<byte>): Store
    requires |v| == Size(k)
  {
    store[Name(Lorawan, k) := Image(p, k, v)]
  }

  predicate IsSplit(k: Key) {
    k.AutoJoin? || k.JoinInterval? || k.JoinAttempts?
  }

  /** A key whose meaning a save of `k` leaves alone. */
  ghost predicate Independent(store: Store, k: Key, j: Key) {
    j != k && (j == JoinPolicy && IsSplit(k) ==> Stored(store, Name(Lorawan, JoinPolicy)) != [])
  }

  /** A plain key depends on its own two names only. */
  lemma PlainFrame(a: Store, b: Store, k: Key)
    requires Stored(a, Name(Lorawan, k)) == Stored(b, Name(Lorawan, k))
    requires Stored(a, Name(Rzi, k)) == Stored(b, Name(Rzi, k))
    ensures ResolvePlain(a, k) == ResolvePlain(b, k)
  {
  }

  lemma UpdateKeepsPolicy(p: Env, store: Store, k: Key, bytes: seq<byte>)
    requires Independent(store, k, JoinPolicy)
    ensures ResolvePolicy(p, store[Name(Lorawan, k) := bytes]) == ResolvePolicy(p, store)
  {
    var store' := store[Name(Lorawan, k) := bytes];
    var record := Stored(store, Name(Lorawan, JoinPolicy));
    assert record == Stored(store', Name(Lorawan, JoinPolicy));
    if record == [] {
      PlainFrame(store, store', AutoJoin);
      PlainFrame(store, store', JoinInterval);
      PlainFrame(store, store', JoinAttempts);
    }
  }

  lemma UpdateKeepsOther(p: Env, store: Store, k: Key, bytes: seq<byte>, j: Key)
    requires Independent(store, k, j)
    ensures Resolve(p, store[Name(Lorawan, k) := bytes], j) == Resolve(p, store, j)
  {
    if j == JoinPolicy {
      UpdateKeepsPolicy(p, store, k, bytes);
    } else {
      PlainFrame(store, store[Name(Lorawan, k) := bytes], j);
    }
  }

  /** Saving a valid value makes its key resolve to it and moves no other key but a policy without a record. */
  lemma SavedResolves(p: Env, store: Store, k: Key, v: seq<byte>)
    requires |v| == Size(k) && ValidValue(k, v)
    ensures Resolve(p, Saved(p, store, k, v), k) == Value(v, true)
    ensures forall j | Independent(store, k, j) :: Resolve(p, Saved(p, store, k, v), j) == Resolve(p, store, j)
  {
    if k == JoinPolicy {
      DecodeEncode(p.crc, p.recordMax, 3, POLICY_VERSION, v);
    }
    forall j | Independent(store, k, j)
      ensures Resolve(p, Saved(p, store, k, v), j) == Resolve(p, store, j)
    {
      UpdateKeepsOther(p, store, k, Image(p, k, v), j);
    }
  }

  // ----- Storage with faults -----

  /** What a failing flash access may report. */
  predicate IsFault(rc: int) {
    rc < 0 && rc != ERR_NOT_FOUND
  }

  datatype Slot = Slot(loaded: bool, present: bool, value: seq<byte>)

  datatype State = State(store: Store, slots: map<Key, Slot>)

  ghost predicate Total(slots: map<Key, Slot>) {
    forall k: Key :: k in slots && (slots[k].loaded ==> |slots[k].value| == Size(k))
  }

  /** A loaded slot holds what its key resolves to; a value found is stored under the current name. */
  ghost predicate SlotCoherent(p: Env, store: Store, k: Key, slot: Slot) {
    slot.loaded ==>
      && Resolve(p, store, k) == Value(slot.value, slot.present)
      && (slot.present ==> Stored(store, Name(Lorawan, k)) != [])
  }

  ghost predicate Coherent(p: Env, s: State) {
    Total(s.slots) && forall k: Key :: SlotCoherent(p, s.store, k, s.slots[k])
  }

  /** A result is the expected outcome, or a flash failure got in the way. */
  ghost predicate Matches(o: Outcome, rc: int, value: seq<byte>, found: bool, faulted: bool) {
    if rc == OK then o == Value(value, found)
    else IsFault(rc) && (faulted || o == Failure(rc))
  }

  /** A load: the resolved value, written back when it came from a legacy layout. */
  ghost predicate LoadSpec(p: Env, store: Store, store': Store, k: Key,
                           rc: int, value: seq<byte>, found: bool, faulted: bool) {
    && Matches(Resolve(p, store, k), rc, value, found, faulted)
    && if rc == OK && found && Stored(store, Name(Lorawan, k)) == [] then
         |value| == Size(k) && store' == Saved(p, store, k, value)
       else
         store' == store
  }

  /** Migrating one split key leaves the policy its three keys stand for. */
  lemma SplitMigrationKeepsPolicy(p: Env, store: Store, k: Key, value: seq<byte>)
    requires IsSplit(k) && ResolvePlain(store, k) == Value(value, true)
    ensures |value| == Size(k) && ResolvePolicy(p, Saved(p, store, k, value)) == ResolvePolicy(p, store)
  {
    PlainIsSound(store, k);
    var store' := Saved(p, store, k, value);
    SavedResolves(p, store, k, value);
    assert Stored(store, Name(Lorawan, JoinPolicy)) == Stored(store', Name(Lorawan, JoinPolicy));
    forall j | j != k
      ensures ResolvePlain(store', j) == ResolvePlain(store, j)
    {
      PlainFrame(store, store', j);
    }
  }

  /** Migration writes back exactly what the legacy layout meant: no key changes its meaning. */
  lemma MigrationKeepsMeaning(p: Env, store: Store, store': Store, k: Key,
                              rc: int, value: seq<byte>, found: bool, faulted: bool)
    requires LoadSpec(p, store, store', k, rc, value, found, faulted)
    ensures forall j :: Resolve(p, store', j) == Resolve(p, store, j)
    ensures store' != store ==> |value| == Size(k) && ValidValue(k, value) && store' == Saved(p, store, k, value)
  {
    if store' != store {
      ResolvedIsValid(p, store, k);
      forall j
        ensures Resolve(p, store', j) == Resolve(p, store, j)
      {
        if j == k {
          SavedResolves(p, store, k, value);
        } else if j == JoinPolicy && IsSplit(k) {
          SplitMigrationKeepsPolicy(p, store, k, value);
        } else {
          UpdateKeepsOther(p, store, k, Image(p, k, value), j);
        }
      }
    }
  }

  ghost predicate ReadSpec(p: Env, s: State, s': State, k: Key, size: nat,
                           rc: int, value: seq<byte>, found: bool, faulted: bool)
    requires Total(s.slots)
  {
    if size != Size(k) then
      rc == ERR_INVALID && s' == s
    else if s.slots[k].loaded then
      rc == OK && s' == s && value == s.slots[k].value && found == s.slots[k].present
    else
      && LoadSpec(p, s.store, s'.store, k, rc, value, found, faulted)
      && s'.slots == (if rc == OK then s.slots[k := Slot(true, found, value)] else s.slots)
  }

  /** A write that repeats the cached value touches no flash. */
  predicate SkipsSave(s: State, k: Key, value: seq<byte>) {
    k in s.slots && s.slots[k] == Slot(true, true, value)
  }

  /** An invalid value is refused; a valid one fails only if a flash failure got in the way. */
  ghost predicate WriteSpec(p: Env, s: State, s': State, k: Key, value: seq<byte>, rc: int, faulted: bool)
    requires Total(s.slots)
  {
    if |value| != Size(k) || !ValidValue(k, value) then
      rc == ERR_INVALID && !faulted && s' == s
    else if faulted then
      IsFault(rc) && s' == s && !SkipsSave(s, k, value)
    else
      && rc == OK
      && s'.slots == s.slots[k := Slot(true, true, value)]
      && s'.store == (if SkipsSave(s, k, value) then s.store else Saved(p, s.store, k, value))
  }

  /** Every registered name is deleted but for those whose deletion failed; caches go only if none did. */
  ghost predicate ClearSpec(s: State, s': State, rc: int, failed: set<Name>)
    requires Total(s.slots)
  {
    && (forall n: Name :: Stored(s'.store, n) == if n in failed then Stored(s.store, n) else [])
    && (rc == OK <==> failed == {})
    && (rc != OK ==> IsFault(rc) && s'.slots == s.slots)
    && (rc == OK ==> Total(s'.slots) && forall k: Key :: s'.slots[k] == Slot(false, false, []))
  }

  /** A reboot keeps flash and forgets RAM. */
  ghost predicate RebootSpec(s: State, s': State) {
    s'.store == s.store && Total(s'.slots) && forall k: Key :: !s'.slots[k].loaded
  }
}
