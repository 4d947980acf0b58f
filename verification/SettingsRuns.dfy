/** Whole runs of the settings service: flash, cache and migrations together behave like one map. */
module SettingsRuns {
  import opened Errors
  import opened Bytes
  import opened Record
  import opened Settings

  datatype Event =
    | Read(key: Key, size: nat, rc: int, value: seq<byte>, found: bool, faulted: bool)
    | Write(key: Key, value: seq<byte>, rc: int, faulted: bool)
    | Clear(rc: int, failed: set<Name>)
    | Reboot

  /** One event and the state it leads to. */
  datatype Transition = Transition(event: Event, state: State)

  ghost predicate Step(p: Env, s: State, e: Event, s': State)
    requires Total(s.slots)
  {
    match e
    case Read(k, size, rc, value, found, faulted) => ReadSpec(p, s, s', k, size, rc, value, found, faulted)
    case Write(k, value, rc, faulted) => WriteSpec(p, s, s', k, value, rc, faulted)
    case Clear(rc, failed) => ClearSpec(s, s', rc, failed)
    case Reboot => RebootSpec(s, s')
  }

  ghost predicate Run(p: Env, s: State, run: seq<Transition>)
    decreases |run|
  {
    && Total(s.slots)
    && (run != [] ==> Step(p, s, run[0].event, run[0].state) && Run(p, run[0].state, run[1..]))
  }

  // ----- The map a caller may think of -----

  /** What every key means in a store. */
  ghost function ViewOf(p: Env, store: Store): (v: map<Key, Outcome>)
    ensures forall k: Key :: k in v && v[k] == Resolve(p, store, k)
  {
    map k: Key | true :: Resolve(p, store, k)
  }

  ghost function DefaultView(): (v: map<Key, Outcome>)
    ensures forall k: Key :: k in v && v[k] == Value(Default(k), false)
  {
    map k: Key | true :: Value(Default(k), false)
  }

  /** A map from keys to meanings; `synced` is lost by a partially failed clear until a reboot or a full clear. */
  datatype Abstract = Abstract(view: map<Key, Outcome>, synced: bool)

  ghost predicate Coupled(p: Env, s: State, a: Abstract) {
    Total(s.slots) && (a.synced ==> Coherent(p, s) && a.view == ViewOf(p, s.store))
  }

  /** Only successful writes and clears move the map; after lost sync a reboot re-reads flash. */
  ghost function Advance(p: Env, a: Abstract, t: Transition): Abstract {
    match t.event
    case Read(_, _, _, _, _, _) => a
    case Write(k, value, rc, _) => if rc == OK then a.(view := a.view[k := Value(value, true)]) else a
    case Clear(rc, _) => if rc == OK then Abstract(DefaultView(), true) else a.(synced := false)
    case Reboot => if a.synced then a else Abstract(ViewOf(p, t.state.store), true)
  }

  /** A read answers from the map; without a flash failure it also fails exactly as the map says. */
  ghost predicate Answers(a: Abstract, e: Event) {
    e.Read? && a.synced && e.size == Size(e.key) && e.key in a.view ==>
      Matches(a.view[e.key], e.rc, e.value, e.found, e.faulted)
  }

  /** The whole run answers from the map. */
  ghost predicate Conforms(p: Env, a: Abstract, run: seq<Transition>)
    decreases |run|
  {
    run != [] ==> Answers(a, run[0].event) && Conforms(p, Advance(p, a, run[0]), run[1..])
  }

  ghost predicate WritesSplitKey(e: Event) {
    e.Write? && IsSplit(e.key)
  }

  function Blank(k: Key): Slot {
    Slot(false, false, [])
  }

  /** A cache with nothing loaded. */
  ghost function Unloaded(): (slots: map<Key, Slot>)
    ensures Total(slots) && forall k: Key :: slots[k] == Slot(false, false, [])
  {
    map k: Key | true :: Blank(k)
  }

  /** A key whose names, in either namespace, a load of `k` may look at. */
  predicate Feeds(j: Key, k: Key) {
    j == k || (k == JoinPolicy && IsSplit(j)) || (k == Region && j == Band)
  }

  lemma EmptyResolvesToDefault(p: Env, store: Store, k: Key)
    requires forall n: Name | Feeds(n.key, k) :: Stored(store, n) == []
    ensures Resolve(p, store, k) == Value(Default(k), false)
  {
    if k == JoinPolicy {
      assert Feeds(AutoJoin, k) && Feeds(JoinInterval, k) && Feeds(JoinAttempts, k);
      EmptyPolicyIsDefault(p, store);
    }
  }

  lemma EmptyPolicyIsDefault(p: Env, store: Store)
    requires Stored(store, Name(Lorawan, JoinPolicy)) == []
    requires forall n: Name | IsSplit(n.key) :: Stored(store, n) == []
    ensures ResolvePolicy(p, store) == Value(Default(JoinPolicy), false)
  {
    assert ResolvePlain(store, AutoJoin) == Value([0], false);
    assert ResolvePlain(store, JoinInterval) == Value([JOIN_INTERVAL_DEFAULT], false);
    assert ResolvePlain(store, JoinAttempts) == Value([0], false);
    assert [0] + [JOIN_INTERVAL_DEFAULT] + [0] == Default(JoinPolicy);
  }

  lemma ClearedIsDefault(p: Env, store: Store)
    requires forall n: Name :: Stored(store, n) == []
    ensures ViewOf(p, store) == DefaultView()
  {
    forall k: Key
      ensures Resolve(p, store, k) == Value(Default(k), false)
    {
      EmptyResolvesToDefault(p, store, k);
    }
  }

  /** Meaning, cache and current name of one key after a save of another. */
  lemma SaveKeepsSlot(p: Env, store: Store, k: Key, value: seq<byte>, j: Key, slot: Slot)
    requires |value| == Size(k) && ValidValue(k, value)
    requires Independent(store, k, j) && SlotCoherent(p, store, j, slot)
    ensures SlotCoherent(p, Saved(p, store, k, value), j, slot)
  {
    SavedResolves(p, store, k, value);
  }

  lemma SaveFillsSlot(p: Env, store: Store, k: Key, value: seq<byte>)
    requires |value| == Size(k) && ValidValue(k, value)
    ensures SlotCoherent(p, Saved(p, store, k, value), k, Slot(true, true, value))
  {
    SavedResolves(p, store, k, value);
    assert Stored(Saved(p, store, k, value), Name(Lorawan, k)) == Image(p, k, value);
  }

  lemma LoadFillsSlot(p: Env, store: Store, store': Store, k: Key, value: seq<byte>, found: bool, faulted: bool)
    requires LoadSpec(p, store, store', k, OK, value, found, faulted)
    ensures SlotCoherent(p, store', k, Slot(true, found, value))
  {
    ResolvedIsValid(p, store, k);
    if found && Stored(store, Name(Lorawan, k)) == [] {
      SaveFillsSlot(p, store, k, value);
    }
  }

  lemma LoadKeepsSlot(p: Env, store: Store, store': Store, k: Key, rc: int, value: seq<byte>, found: bool,
                      faulted: bool, j: Key, slot: Slot)
    requires LoadSpec(p, store, store', k, rc, value, found, faulted)
    requires j != k && SlotCoherent(p, store, j, slot)
    ensures SlotCoherent(p, store', j, slot)
  {
    MigrationKeepsMeaning(p, store, store', k, rc, value, found, faulted);
  }

  /** A read keeps the table well-formed in any state. */
  lemma ReadStaysTotal(p: Env, s: State, e: Event, s': State)
    requires e.Read? && Total(s.slots) && Step(p, s, e, s')
    ensures Total(s'.slots) && (e.rc == OK ==> |e.value| == Size(e.key))
  {
    ResolvedIsValid(p, s.store, e.key);
  }

  lemma ReadStaysCoherent(p: Env, s: State, e: Event, s': State)
    requires e.Read? && Coherent(p, s) && Step(p, s, e, s')
    ensures Coherent(p, s') && ViewOf(p, s'.store) == ViewOf(p, s.store)
  {
    var k := e.key;
    ReadStaysTotal(p, s, e, s');
    if e.size == Size(k) && !s.slots[k].loaded {
      MigrationKeepsMeaning(p, s.store, s'.store, k, e.rc, e.value, e.found, e.faulted);
      forall j: Key
        ensures SlotCoherent(p, s'.store, j, s'.slots[j])
      {
        if j != k {
          LoadKeepsSlot(p, s.store, s'.store, k, e.rc, e.value, e.found, e.faulted, j, s.slots[j]);
        } else if e.rc == OK {
          LoadFillsSlot(p, s.store, s'.store, k, e.value, e.found, e.faulted);
        }
      }
    }
  }

  /** A guard the caller can check in the cache: a split key is not written behind a loaded, record-less policy. */
  predicate WriteGuard(s: State, k: Key)
    requires JoinPolicy in s.slots
  {
    IsSplit(k) ==> !(s.slots[JoinPolicy].loaded && !s.slots[JoinPolicy].present)
  }

  lemma SaveKeepsEverySlot(p: Env, s: State, k: Key, value: seq<byte>, j: Key)
    requires Coherent(p, s) && |value| == Size(k) && ValidValue(k, value) && WriteGuard(s, k)
    ensures SlotCoherent(p, Saved(p, s.store, k, value), j, if j == k then Slot(true, true, value) else s.slots[j])
  {
    assert SlotCoherent(p, s.store, JoinPolicy, s.slots[JoinPolicy]);
    if j == k {
      SaveFillsSlot(p, s.store, k, value);
    } else if Independent(s.store, k, j) {
      SaveKeepsSlot(p, s.store, k, value, j, s.slots[j]);
    }
  }

  lemma WriteStaysCoherent(p: Env, s: State, k: Key, value: seq<byte>, rc: int, faulted: bool, s': State)
    requires Coherent(p, s) && WriteSpec(p, s, s', k, value, rc, faulted) && WriteGuard(s, k)
    ensures Coherent(p, s')
  {
    if rc == OK && !SkipsSave(s, k, value) {
      forall j: Key
        ensures SlotCoherent(p, s'.store, j, s'.slots[j])
      {
        SaveKeepsEverySlot(p, s, k, value, j);
      }
    }
  }

  lemma StepRefines(p: Env, s: State, t: Transition, a: Abstract)
    requires Coupled(p, s, a) && Step(p, s, t.event, t.state) && !WritesSplitKey(t.event)
    ensures Coupled(p, t.state, Advance(p, a, t)) && Answers(a, t.event)
  {
    var s' := t.state;
    match t.event
    case Read(k, size, rc, value, found, faulted) =>
      ReadStaysTotal(p, s, t.event, s');
      if a.synced {
        ReadStaysCoherent(p, s, t.event, s');
        assert SlotCoherent(p, s.store, k, s.slots[k]);
      }
    case Write(k, value, rc, faulted) =>
      if a.synced {
        WriteAdvances(p, s, k, value, rc, faulted, s');
      }
    case Clear(rc, failed) =>
      if rc == OK {
        ClearedIsDefault(p, s'.store);
      }
    case Reboot =>
  }

  lemma WriteMovesKey(p: Env, s: State, k: Key, value: seq<byte>, s': State, j: Key)
    requires Coherent(p, s) && WriteSpec(p, s, s', k, value, OK, false) && !IsSplit(k)
    ensures Resolve(p, s'.store, j) == if j == k then Value(value, true) else Resolve(p, s.store, j)
  {
    if SkipsSave(s, k, value) {
      assert SlotCoherent(p, s.store, k, s.slots[k]);
    } else if j == k {
      SavedResolves(p, s.store, k, value);
    } else {
      UpdateKeepsOther(p, s.store, k, Image(p, k, value), j);
    }
  }

  lemma WriteMovesOneKey(p: Env, s: State, k: Key, value: seq<byte>, rc: int, faulted: bool, s': State)
    requires Coherent(p, s) && WriteSpec(p, s, s', k, value, rc, faulted) && !IsSplit(k)
    ensures ViewOf(p, s'.store) == if rc == OK then ViewOf(p, s.store)[k := Value(value, true)] else ViewOf(p, s.store)
  {
    if rc == OK {
      forall j: Key
        ensures Resolve(p, s'.store, j) == if j == k then Value(value, true) else Resolve(p, s.store, j)
      {
        WriteMovesKey(p, s, k, value, s', j);
      }
    }
  }

  lemma WriteAdvances(p: Env, s: State, k: Key, value: seq<byte>, rc: int, faulted: bool, s': State)
    requires Coherent(p, s) && WriteSpec(p, s, s', k, value, rc, faulted) && !IsSplit(k)
    ensures Coherent(p, s')
    ensures ViewOf(p, s'.store) == if rc == OK then ViewOf(p, s.store)[k := Value(value, true)] else ViewOf(p, s.store)
  {
    WriteStaysCoherent(p, s, k, value, rc, faulted, s');
    WriteMovesOneKey(p, s, k, value, rc, faulted, s');
  }

  /**
   * Cache transparency over whole runs: whatever the flash contents, the flash failures, the reboots and
   * the clears, every read answers from a map that only successful writes and clears change.
   */
  lemma {:induction false} RunRefines(p: Env, s: State, run: seq<Transition>, a: Abstract)
    requires Run(p, s, run) && Coupled(p, s, a)
    requires forall t | t in run :: !WritesSplitKey(t.event)
    ensures Conforms(p, a, run)
    decreases |run|
  {
    if run != [] {
      StepRefines(p, s, run[0], a);
      RunRefines(p, run[0].state, run[1..], Advance(p, a, run[0]));
    }
  }

  // ----- Where transparency ends -----

  /** A split key that now says something makes a policy without a record found. */
  lemma SplitKeyMakesFound(p: Env, store: Store, k: Key, value: seq<byte>)
    requires IsSplit(k) && Stored(store, Name(Lorawan, JoinPolicy)) == []
    requires ResolvePlain(store, k) == Value(value, true)
    ensures Resolve(p, store, JoinPolicy).Value? ==> Resolve(p, store, JoinPolicy).found
  {
  }

  lemma UnguardedSplitWrite(p: Env, s: State, k: Key, value: seq<byte>, s': State)
    requires Coherent(p, s) && IsSplit(k) && WriteSpec(p, s, s', k, value, OK, false) && !WriteGuard(s, k)
    ensures !Coherent(p, s')
  {
    var policy := s.slots[JoinPolicy];
    assert SlotCoherent(p, s.store, JoinPolicy, policy);
    assert SlotCoherent(p, s.store, k, s.slots[k]);
    NoRecord(p, s.store);
    assert !SkipsSave(s, k, value) by {
      if SkipsSave(s, k, value) {
        SplitKeyMakesFound(p, s.store, k, value);
      }
    }
    SavedResolves(p, s.store, k, value);
    SplitKeyMakesFound(p, s'.store, k, value);
    assert !SlotCoherent(p, s'.store, JoinPolicy, s'.slots[JoinPolicy]);
  }

  /** A policy that is not found has no record. */
  lemma NoRecord(p: Env, store: Store)
    requires Resolve(p, store, JoinPolicy).Value? && !Resolve(p, store, JoinPolicy).found
    ensures Stored(store, Name(Lorawan, JoinPolicy)) == []
  {
    DecodeCharacterised(p.crc, p.recordMax, 3, Stored(store, Name(Lorawan, JoinPolicy)));
  }

  /** Writing a legacy split key keeps the cache coherent exactly when no record-less policy is cached. */
  lemma SplitKeyWriteCoherentIff(p: Env, s: State, k: Key, value: seq<byte>, s': State)
    requires Coherent(p, s) && IsSplit(k) && WriteSpec(p, s, s', k, value, OK, false)
    ensures Coherent(p, s') <==> WriteGuard(s, k)
  {
    if WriteGuard(s, k) {
      WriteStaysCoherent(p, s, k, value, OK, false, s');
    } else {
      UnguardedSplitWrite(p, s, k, value, s');
    }
  }

  /**
   * The failing case, from empty flash: the policy is read and cached as its default, auto-join is written, and the
   * cache still says no while a reboot will say yes.
   */
  lemma SplitKeyWriteDiverges(p: Env) returns (s: State, s': State)
    ensures s.store == map[] && Coherent(p, s) && s.slots[JoinPolicy] == Slot(true, false, Default(JoinPolicy))
    ensures WriteSpec(p, s, s', AutoJoin, [1], OK, false) && !Coherent(p, s')
    ensures s'.slots[JoinPolicy].value[0] == 0
    ensures Resolve(p, s'.store, JoinPolicy).Value? && Resolve(p, s'.store, JoinPolicy).value[0] == 1
  {
    var policy := Slot(true, false, Default(JoinPolicy));
    s := State(map[], Unloaded()[JoinPolicy := policy]);
    EmptyResolvesToDefault(p, map[], JoinPolicy);
    s' := State(Saved(p, map[], AutoJoin, [1]), s.slots[AutoJoin := Slot(true, true, [1])]);
    SplitKeyWriteCoherentIff(p, s, AutoJoin, [1], s');
    AutoJoinAlone(p, s'.store);
  }

  lemma AutoJoinAlone(p: Env, store: Store)
    requires store == map[Name(Lorawan, AutoJoin) := [1]]
    ensures Resolve(p, store, JoinPolicy).Value? && Resolve(p, store, JoinPolicy).value[0] == 1
  {
    PlainFrame(store, map[], JoinInterval);
    PlainFrame(store, map[], JoinAttempts);
    assert ResolvePlain(store, AutoJoin) == Value([1], true);
    assert ResolvePlain(map[], JoinInterval) == Value(Default(JoinInterval), false);
    assert ResolvePlain(map[], JoinAttempts) == Value(Default(JoinAttempts), false);
  }

  /** The names that can still give a key a meaning once its current name is gone. */
  predicate IsLegacyName(k: Key, n: Name) {
    match k
    case JoinPolicy => IsSplit(n.key)
    case Region => n == Name(Rzi, Region) || n == Name(Rzi, Band)
    case _ => n == Name(Rzi, k)
  }

  /** A store that holds nothing but the legacy names of a key whose deletion failed. */
  function LegacyLeft(store: Store, failed: set<Name>, k: Key): Store {
    map n | n in store && n in failed && IsLegacyName(k, n) :: store[n]
  }

  lemma LegacyLeftStores(store: Store, failed: set<Name>, k: Key, n: Name)
    ensures Stored(LegacyLeft(store, failed, k), n)
         == if n in failed && IsLegacyName(k, n) then Stored(store, n) else []
  {
  }

  /** With the current name empty, a key's meaning depends on its legacy names alone. */
  lemma LegacyFrame(p: Env, a: Store, b: Store, k: Key)
    requires Stored(a, Name(Lorawan, k)) == [] && Stored(b, Name(Lorawan, k)) == []
    requires forall n: Name | IsLegacyName(k, n) :: Stored(a, n) == Stored(b, n)
    ensures Resolve(p, a, k) == Resolve(p, b, k)
  {
    match k
    case JoinPolicy =>
      forall j: Key | IsSplit(j)
        ensures ResolvePlain(a, j) == ResolvePlain(b, j)
      {
        assert IsLegacyName(k, Name(Lorawan, j)) && IsLegacyName(k, Name(Rzi, j));
        PlainFrame(a, b, j);
      }
      assert IsSplit(AutoJoin) && IsSplit(JoinInterval) && IsSplit(JoinAttempts);
    case Region =>
      assert IsLegacyName(k, Name(Rzi, Region)) && IsLegacyName(k, Name(Rzi, Band));
      PlainFrame(a, b, Region);
    case _ =>
      assert IsLegacyName(k, Name(Rzi, k));
      PlainFrame(a, b, k);
  }

  /** With the current name kept, a key's meaning does not depend on any other name. */
  lemma CurrentFrame(p: Env, a: Store, b: Store, k: Key)
    requires Stored(a, Name(Lorawan, k)) == Stored(b, Name(Lorawan, k)) != []
    requires Resolve(p, a, k).Value?
    ensures Resolve(p, b, k) == Resolve(p, a, k)
  {
    if k.JoinPolicy? {
      assert Decode(p.crc, p.recordMax, 3, Stored(a, Name(Lorawan, k))) != Rejected(ERR_NOT_FOUND) by {
        DecodeCharacterised(p.crc, p.recordMax, 3, Stored(a, Name(Lorawan, k)));
      }
    }
  }

  ghost function EndState(s: State, run: seq<Transition>): State {
    if run == [] then s else run[|run| - 1].state
  }

  /** Neither writes the key, nor a split key, nor clears. */
  predicate LeavesAlone(k: Key, e: Event) {
    !e.Clear? && (e.Write? ==> e.key != k && !IsSplit(e.key))
  }

  /** The meaning and the cached slot of a key after activity that neither writes it nor clears nor reboots. */
  lemma StepKeepsSlot(p: Env, s: State, t: Transition, k: Key)
    requires Total(s.slots) && Step(p, s, t.event, t.state) && s.slots[k].loaded
    requires LeavesAlone(k, t.event) && !t.event.Reboot?
    ensures Total(t.state.slots) && t.state.slots[k] == s.slots[k]
    ensures Resolve(p, t.state.store, k) == Resolve(p, s.store, k)
  {
    var e := t.event;
    if e.Read? {
      ReadStaysTotal(p, s, e, t.state);
      if e.size == Size(e.key) && !s.slots[e.key].loaded {
        MigrationKeepsMeaning(p, s.store, t.state.store, e.key, e.rc, e.value, e.found, e.faulted);
      }
    } else if t.state.store != s.store {
      UpdateKeepsOther(p, s.store, e.key, Image(p, e.key, e.value), k);
    }
  }

  lemma {:induction false} RunKeepsSlot(p: Env, s: State, run: seq<Transition>, k: Key)
    requires Run(p, s, run) && s.slots[k].loaded
    requires forall t | t in run :: LeavesAlone(k, t.event) && !t.event.Reboot?
    ensures Total(EndState(s, run).slots) && EndState(s, run).slots[k] == s.slots[k]
    ensures Resolve(p, EndState(s, run).store, k) == Resolve(p, s.store, k)
    decreases |run|
  {
    if run != [] {
      StepKeepsSlot(p, s, run[0], k);
      RunKeepsSlot(p, run[0].state, run[1..], k);
    }
  }

  lemma ClearKeepsWhat(p: Env, s: State, k: Key, value: seq<byte>, s1: State, rc: int, failed: set<Name>)
    requires Coherent(p, s) && s.slots[k] == Slot(true, true, value)
    requires ClearSpec(s, s1, rc, failed) && rc != OK
    ensures Resolve(p, s1.store, k) == Value(value, true)
       <==> Name(Lorawan, k) in failed || Resolve(p, LegacyLeft(s.store, failed, k), k) == Value(value, true)
  {
    assert SlotCoherent(p, s.store, k, s.slots[k]);
    var current := Name(Lorawan, k);
    if current in failed {
      CurrentFrame(p, s.store, s1.store, k);
    } else {
      forall n: Name | IsLegacyName(k, n)
        ensures Stored(s1.store, n) == Stored(LegacyLeft(s.store, failed, k), n)
      {
        LegacyLeftStores(s.store, failed, k, n);
      }
      LegacyLeftStores(s.store, failed, k, current);
      LegacyFrame(p, s1.store, LegacyLeft(s.store, failed, k), k);
    }
  }

  /**
   * After a clear that failed for some names, and any reads and writes of other keys, a write that repeats the
   * cached value of a key saves nothing and returns success. A reboot finds it exactly if the clear failed for the
   * current name of the key, or what it left of the legacy names happens to say the same.
   */
  lemma RepeatedWriteDurableIff(p: Env, s: State, k: Key, value: seq<byte>, s1: State, rc: int, failed: set<Name>,
                                between: seq<Transition>, s2: State, faulted: bool)
    requires Coherent(p, s) && s.slots[k] == Slot(true, true, value)
    requires ClearSpec(s, s1, rc, failed) && rc != OK
    requires Run(p, s1, between) && forall t | t in between :: LeavesAlone(k, t.event) && !t.event.Reboot?
    requires Run(p, EndState(s1, between), [Transition(Write(k, value, OK, faulted), s2)])
    ensures s2.store == EndState(s1, between).store
    ensures Resolve(p, s2.store, k) == Value(value, true)
       <==> Name(Lorawan, k) in failed || Resolve(p, LegacyLeft(s.store, failed, k), k) == Value(value, true)
  {
    RunKeepsSlot(p, s1, between, k);
    ClearKeepsWhat(p, s, k, value, s1, rc, failed);
  }

  // ----- What a caller can rely on -----

  /** Every clear in the run that reached flash either succeeded or was undone by a reboot or a full clear. */
  ghost predicate InStep(synced: bool, run: seq<Transition>)
    decreases |run|
  {
    if run == [] then synced
    else
      var e := run[0].event;
      InStep(e.Reboot? || (if e.Clear? then e.rc == OK else synced), run[1..])
  }

  lemma {:induction false} InStepIsCoherent(p: Env, s: State, run: seq<Transition>, a: Abstract)
    requires Run(p, s, run) && Coupled(p, s, a) && InStep(a.synced, run)
    requires forall t | t in run :: !WritesSplitKey(t.event)
    ensures Coherent(p, EndState(s, run))
    decreases |run|
  {
    if run != [] {
      var a' := Advance(p, a, run[0]);
      StepRefines(p, s, run[0], a);
      InStepIsCoherent(p, run[0].state, run[1..], a');
    }
  }

  lemma SameViewSameMeaning(p: Env, a: Store, b: Store, k: Key)
    requires ViewOf(p, a) == ViewOf(p, b)
    ensures Resolve(p, a, k) == Resolve(p, b, k)
  {
    assert ViewOf(p, a)[k] == ViewOf(p, b)[k];
  }

  lemma StepLeavesAlone(p: Env, s: State, e: Event, s': State, k: Key)
    requires Coherent(p, s) && Step(p, s, e, s') && LeavesAlone(k, e)
    ensures Coherent(p, s') && Resolve(p, s'.store, k) == Resolve(p, s.store, k)
  {
    match e
    case Read(_, _, _, _, _, _) =>
      ReadStaysCoherent(p, s, e, s');
      SameViewSameMeaning(p, s.store, s'.store, k);
    case Write(j, value, rc, faulted) =>
      WriteStaysCoherent(p, s, j, value, rc, faulted, s');
      if rc == OK {
        WriteMovesKey(p, s, j, value, s', k);
      }
    case Reboot =>
  }

  lemma {:induction false} MeaningStays(p: Env, s: State, run: seq<Transition>, k: Key)
    requires Coherent(p, s) && Run(p, s, run) && forall t | t in run :: LeavesAlone(k, t.event)
    ensures Coherent(p, EndState(s, run)) && Resolve(p, EndState(s, run).store, k) == Resolve(p, s.store, k)
    decreases |run|
  {
    if run != [] {
      StepLeavesAlone(p, s, run[0].event, run[0].state, k);
      MeaningStays(p, run[0].state, run[1..], k);
    }
  }

  /**
   * From any flash contents: if no clear has failed since the last reboot or full clear, a write that returned
   * success is what every later read finds, across failures and reboots, until the key is written or cleared.
   */
  lemma SuccessfulWriteIsFound(p: Env, boot: State, run: seq<Transition>, write: Transition,
                               rest: seq<Transition>, read: Transition)
    requires Coherent(p, boot) && Run(p, boot, run) && InStep(true, run)
    requires forall t | t in run :: !WritesSplitKey(t.event)
    requires write.event.Write? && write.event.rc == OK && !IsSplit(write.event.key)
    requires Run(p, EndState(boot, run), [write])
    requires Run(p, write.state, rest) && forall t | t in rest :: LeavesAlone(write.event.key, t.event)
    requires read.event.Read? && read.event.key == write.event.key && read.event.rc == OK
    requires Run(p, EndState(write.state, rest), [read])
    ensures read.event.value == write.event.value && read.event.found
  {
    var s, e := EndState(boot, run), write.event;
    InStepIsCoherent(p, boot, run, Abstract(ViewOf(p, boot.store), true));
    WriteAdvances(p, s, e.key, e.value, OK, e.faulted, write.state);
    assert Resolve(p, write.state.store, e.key) == ViewOf(p, write.state.store)[e.key] == Value(e.value, true);
    MeaningStays(p, write.state, rest, e.key);
    var last := EndState(write.state, rest);
    assert SlotCoherent(p, last.store, e.key, last.slots[e.key]);
  }

  lemma RunCons(p: Env, s: State, t: Transition, rest: seq<Transition>)
    requires Total(s.slots) && Step(p, s, t.event, t.state)
    requires if rest == [] then Total(t.state.slots) else Run(p, t.state, rest)
    ensures Run(p, s, [t] + rest)
  {
    assert ([t] + rest)[1..] == rest;
  }

  lemma LoadsStoredFlag(p: Env, store: Store)
    requires Stored(store, Name(Lorawan, Cfm)) == [1]
    ensures Step(p, State(store, Unloaded()), Read(Cfm, 1, OK, [1], true, false),
                 State(store, Unloaded()[Cfm := Slot(true, true, [1])]))
  {
  }

  lemma LoadsDefaultFlag(p: Env)
    ensures Step(p, State(map[], Unloaded()), Read(Cfm, 1, OK, [0], false, false),
                 State(map[], Unloaded()[Cfm := Slot(true, false, [0])]))
  {
    assert Default(Cfm) == [0];
  }

  /** After a partially failed clear, a write that returns success can be gone after a reboot. */
  lemma FailedClearLosesWrite(p: Env) returns (s: State, run: seq<Transition>)
    ensures Coherent(p, s) && Run(p, s, run) && |run| == 5
    ensures run[0].event == Read(Cfm, 1, OK, [1], true, false)
    ensures run[1].event == Clear(-1012, {Name(Rzi, Band)})
    ensures run[2].event == Write(Cfm, [1], OK, false)
    ensures run[3].event == Reboot
    ensures run[4].event == Read(Cfm, 1, OK, [0], false, false)
  {
    var none := Unloaded();
    var cached := none[Cfm := Slot(true, true, [1])];
    var flash := map[Name(Lorawan, Cfm) := [1]];
    s := State(flash, none);
    var t0 := Transition(Read(Cfm, 1, OK, [1], true, false), State(flash, cached));
    var t1 := Transition(Clear(-1012, {Name(Rzi, Band)}), State(map[], cached));
    var t2 := Transition(Write(Cfm, [1], OK, false), State(map[], cached));
    var t3 := Transition(Reboot, State(map[], none));
    var t4 := Transition(Read(Cfm, 1, OK, [0], false, false), State(map[], none[Cfm := Slot(true, false, [0])]));
    LoadsStoredFlag(p, flash);
    LoadsDefaultFlag(p);
    RunCons(p, t3.state, t4, []);
    RunCons(p, t2.state, t3, [t4]);
    assert cached[Cfm := Slot(true, true, [1])] == cached;
    RunCons(p, t1.state, t2, [t3, t4]);
    RunCons(p, t0.state, t1, [t2, t3, t4]);
    RunCons(p, s, t0, [t1, t2, t3, t4]);
    run := [t0, t1, t2, t3, t4];
  }

  // ----- Factory reset -----

  /** Nothing registered is stored, and what the cache holds are defaults. */
  ghost predicate AllDefault(s: State) {
    && Total(s.slots)
    && (forall n: Name :: Stored(s.store, n) == [])
    && forall k: Key | s.slots[k].loaded :: s.slots[k] == Slot(true, false, Default(k))
  }

  ghost predicate AnswersDefault(e: Event) {
    e.Read? && e.size == Size(e.key) ==>
      if e.rc == OK then e.value == Default(e.key) && !e.found else e.faulted
  }

  lemma DefaultsSurviveStep(p: Env, s: State, t: Transition)
    requires AllDefault(s) && Step(p, s, t.event, t.state) && !t.event.Write?
    ensures AllDefault(t.state) && AnswersDefault(t.event)
  {
    if t.event.Read? {
      ReadStaysTotal(p, s, t.event, t.state);
      EmptyResolvesToDefault(p, s.store, t.event.key);
    }
  }

  lemma {:induction false} DefaultsSurvive(p: Env, s: State, run: seq<Transition>)
    requires AllDefault(s) && Run(p, s, run)
    requires forall t | t in run :: !t.event.Write?
    ensures forall t | t in run :: AnswersDefault(t.event)
    decreases |run|
  {
    if run != [] {
      DefaultsSurviveStep(p, s, run[0]);
      DefaultsSurvive(p, run[0].state, run[1..]);
      assert forall t | t in run :: t == run[0] || t in run[1..];
    }
  }

  /**
   * No resurrection: from any state, after any number of failed clears, one clear that returns success makes
   * every later read answer the default, across reboots and further clears, until the next write.
   */
  lemma NoResurrection(p: Env, s: State, clear: Transition, run: seq<Transition>)
    requires clear.event.Clear? && clear.event.rc == OK
    requires Run(p, s, [clear] + run) && forall t | t in run :: !t.event.Write?
    ensures forall t | t in run :: AnswersDefault(t.event)
  {
    assert ([clear] + run)[1..] == run;
    DefaultsSurvive(p, clear.state, run);
  }
}
