/** The settings service as the C file writes it: static table and flash, updated in place. */
module SettingsService {
  import opened Errors
  import opened Bytes
  import opened Record
  import opened Settings

  class Service {
    const p: Env
    var store: Store
    var slots: map<Key, Slot>

    ghost function Now(): State
      reads this
    {
      State(store, slots)
    }

    ghost predicate Valid()
      reads this
    {
      Total(slots)
    }

    constructor (p: Env, flash: Store)
      ensures Valid() && Coherent(p, Now()) && this.p == p && store == flash
    {
      this.p := p;
      store := flash;
      EveryKeyHasARow();
      slots := map k | k in TABLE :: Slot(false, false, []);
    }

    /** Any flash access may fail. */
    method FlashAccess() returns (rc: int)
      ensures rc == OK || IsFault(rc)
    {
      rc := *;
      if !IsFault(rc) {
        rc := OK;
      }
    }

    method StorageRead(name: Name, size: nat) returns (rc: int, value: seq<byte>, ghost faulted: bool)
      ensures faulted ==> IsFault(rc)
      ensures !faulted ==>
                rc == (if Stored(store, name) == [] then ERR_NOT_FOUND
                       else if |Stored(store, name)| != size then ERR_TOO_LARGE else OK)
      ensures rc == OK ==> value == Stored(store, name) && |value| == size
    {
      rc := FlashAccess();
      value, faulted := [], rc != OK;
      if rc != OK {
        return;
      }
      var bytes := Stored(store, name);
      if bytes == [] {
        rc := ERR_NOT_FOUND;
      } else if |bytes| != size {
        rc := ERR_TOO_LARGE;
      } else {
        value := bytes;
      }
    }

    method StorageReadRecord(name: Name, capacity: nat)
        returns (rc: int, version: u16, value: seq<byte>, ghost faulted: bool)
      requires 0 < capacity
      ensures faulted ==> IsFault(rc)
      ensures !faulted ==>
                Decode(p.crc, p.recordMax, capacity, Stored(store, name))
                == (if rc == OK then Accepted(version, value) else Rejected(rc))
    {
      rc := FlashAccess();
      version, value, faulted := 0, [], rc != OK;
      if rc != OK {
        return;
      }
      var out := new Outputs(capacity);
      rc := out.ReadRecord(p.crc, p.recordMax, Stored(store, name));
      if rc == OK {
        version, value := out.version, out.value[..out.size];
      }
    }

    method StorageWrite(name: Name, value: seq<byte>) returns (rc: int)
      modifies this`store
      ensures rc == OK || IsFault(rc)
      ensures store == (if rc == OK then old(store)[name := value] else old(store))
    {
      rc := FlashAccess();
      if rc == OK {
        store := store[name := value];
      }
    }

    method StorageDelete(name: Name) returns (rc: int, ghost faulted: bool)
      modifies this`store
      ensures faulted ==> IsFault(rc) && store == old(store)
      ensures !faulted ==> Stored(store, name) == [] && (rc == OK || rc == ERR_NOT_FOUND)
      ensures forall n :: n != name ==> Stored(store, n) == Stored(old(store), n)
    {
      rc := FlashAccess();
      faulted := rc != OK;
      if rc != OK {
        return;
      }
      if Stored(store, name) == [] {
        rc := ERR_NOT_FOUND;
      } else {
        store := store - {name};
      }
    }

    method SaveValue(k: Key, value: seq<byte>) returns (rc: int)
      requires |value| == Size(k)
      modifies this`store
      ensures rc == OK || IsFault(rc)
      ensures store == (if rc == OK then Saved(p, old(store), k, value) else old(store))
    {
      var bytes := value;
      if SchemaOf(k).kind == JOIN_POLICY {
        rc, bytes := BuildRecord(p.crc, p.recordMax, POLICY_VERSION, value);
        if rc != OK {
          return;
        }
      }
      rc := StorageWrite(Name(Lorawan, k), bytes);
    }

    /** Leaves the cache alone and returns a validated candidate. */
    method ReadLegacy(k: Key) returns (rc: int, value: seq<byte>, found: bool, ghost faulted: bool)
      ensures Matches(ResolvePlain(store, k), rc, value, found, faulted)
      ensures rc == OK ==> |value| == Size(k)
    {
      rc, value, faulted := StorageRead(Name(Lorawan, k), Size(k));
      if rc == ERR_NOT_FOUND {
        rc, value, faulted := StorageRead(Name(Rzi, k), Size(k));
      }
      found := rc == OK;
      if rc == ERR_NOT_FOUND {
        return OK, Default(k), false, faulted;
      }
      if rc != OK {
        return;
      }
      if !ValidValue(k, value) {
        rc := ERR_BAD_MESSAGE;
      }
    }

    /** Called with the default region, once neither namespace holds a region. */
    method MigrateRegion(candidate: seq<byte>) returns (rc: int, value: seq<byte>, found: bool, ghost faulted: bool)
      requires ResolvePlain(store, Region) == Value(candidate, false)
      ensures Matches(ResolveRegion(store), rc, value, found, faulted)
    {
      var band;
      rc, band, faulted := StorageRead(Name(Rzi, Band), 1);
      value, found := candidate, rc == OK;
      if rc == ERR_NOT_FOUND {
        return OK, candidate, false, faulted;
      }
      if rc != OK {
        return;
      }
      if band[0] == 0 || band[0] >= |BANDS| {
        rc := ERR_BAD_MESSAGE;
        return;
      }
      value := [BANDS[band[0]]];
    }

    /** The policy a record-less store holds in its three split keys. */
    method ReadSplitPolicy() returns (rc: int, value: seq<byte>, found: bool, ghost faulted: bool)
      requires Stored(store, Name(Lorawan, JoinPolicy)) == []
      ensures Matches(ResolvePolicy(p, store), rc, value, found, faulted)
    {
      rc, value, found, faulted := OK, Default(JoinPolicy), false, false;
      for i := 0 to |SPLIT_KEYS|
        invariant rc == OK && |value| == 3 && SplitSoFar(store, i, value, found)
      {
        var one, present;
        rc, one, present, faulted := ReadLegacy(SPLIT_KEYS[i]);
        if rc != OK {
          SplitFails(p, store, i, value, found);
          return;
        }
        SplitOneMore(store, i, value, found, one, present);
        value := value[i := one[0]];
        found := found || present;
      }
      SplitCombines(p, store, value, found);
    }

    method LoadValue(k: Key) returns (rc: int, value: seq<byte>, found: bool, ghost faulted: bool)
      modifies this`store
      ensures LoadSpec(p, old(store), store, k, rc, value, found, faulted)
    {
      ResolvedIsValid(p, store, k);
      if SchemaOf(k).kind == JOIN_POLICY {
        var version;
        rc, version, value, faulted := StorageReadRecord(Name(Lorawan, k), Size(k));
        if rc == OK {
          found := true;
          if version != POLICY_VERSION {
            rc := ERR_NOT_SUPPORTED;
          } else if |value| != Size(k) || !ValidValue(k, value) {
            rc := ERR_BAD_MESSAGE;
          }
          return;
        }
        found := false;
        if rc != ERR_NOT_FOUND {
          return;
        }
        DecodeCharacterised(p.crc, p.recordMax, Size(k), Stored(store, Name(Lorawan, k)));
        rc, value, found, faulted := ReadSplitPolicy();
        if rc != OK {
          return;
        }
      } else {
        rc, value, faulted := StorageRead(Name(Lorawan, k), Size(k));
        if rc == OK {
          found := true;
          if !ValidValue(k, value) {
            rc := ERR_BAD_MESSAGE;
          }
          return;
        }
        found := false;
        if rc != ERR_NOT_FOUND {
          return;
        }
        rc, value, found, faulted := ReadLegacy(k);
        if rc != OK {
          return;
        }
        if !found && SchemaOf(k).kind == REGION {
          rc, value, found, faulted := MigrateRegion(value);
          if rc != OK {
            return;
          }
        }
      }
      if found {
        rc := SaveValue(k, value);
        faulted := rc != OK;
      }
    }

    method Read(k: Key, size: nat) returns (rc: int, value: seq<byte>, found: bool, ghost faulted: bool)
      requires Valid()
      modifies this
      ensures Valid() && ReadSpec(p, old(Now()), Now(), k, size, rc, value, found, faulted)
    {
      rc, value, found, faulted := OK, [], false, false;
      if size != Size(k) {
        return ERR_INVALID, [], false, false;
      }
      if !slots[k].loaded {
        var candidate, present;
        ResolvedIsValid(p, store, k);
        rc, candidate, present, faulted := LoadValue(k);
        if rc == OK {
          slots := slots[k := Slot(true, present, candidate)];
        }
      }
      if rc == OK {
        value, found := slots[k].value, slots[k].present;
      }
    }

    method Write(k: Key, value: seq<byte>) returns (rc: int, ghost faulted: bool)
      requires Valid()
      modifies this
      ensures Valid() && WriteSpec(p, old(Now()), Now(), k, value, rc, faulted)
    {
      rc, faulted := OK, false;
      if |value| != Size(k) || !ValidValue(k, value) {
        return ERR_INVALID, false;
      }
      if !slots[k].loaded || !slots[k].present || slots[k].value != value {
        rc := SaveValue(k, value);
        faulted := rc != OK;
      }
      if rc == OK {
        slots := slots[k := Slot(true, true, value)];
      }
    }

    /** The inner loop of a clear: one namespace, continuing with the first failure so far. */
    method ClearNamespace(ns: Namespace, first: int) returns (rc: int, ghost failed: set<Name>)
      requires first == OK || IsFault(first)
      modifies this`store
      ensures Swept(old(store), store, ns, |TABLE|, failed)
      ensures rc == OK || IsFault(rc)
      ensures first != OK ==> rc == first
      ensures first == OK ==> (rc == OK <==> failed == {})
    {
      rc, failed := first, {};
      NothingSwept(store, ns);
      for i := 0 to |TABLE|
        invariant Swept(old(store), store, ns, i, failed)
        invariant rc == OK || IsFault(rc)
        invariant first != OK ==> rc == first
        invariant first == OK ==> (rc == OK <==> failed == {})
      {
        RowsAreDistinct(i);
        ghost var faulted;
        var one;
        label Before:
        one, faulted := StorageDelete(Name(ns, TABLE[i]));
        SweepOne(old(store), old@Before(store), store, ns, i, failed, faulted);
        if faulted {
          failed := failed + {Name(ns, TABLE[i])};
        }
        if one != OK && one != ERR_NOT_FOUND && rc == OK {
          rc := one;
        }
      }
    }

    /** Deletes every name of both namespaces and remembers the first failure. */
    method Clear() returns (rc: int, ghost failed: set<Name>)
      requires Valid()
      modifies this
      ensures Valid() && ClearSpec(old(Now()), Now(), rc, failed)
    {
      ghost var more;
      rc, failed := ClearNamespace(NAMESPACES[0], OK);
      rc, more := ClearNamespace(NAMESPACES[1], rc);
      failed := failed + more;
      if rc == OK {
        EveryKeyHasARow();
        slots := map k | k in TABLE :: Slot(false, false, []);
      }
    }
  }

  /** The first `i` split keys have been read into their places. */
  ghost predicate SplitSoFar(store: Store, i: nat, value: seq<byte>, found: bool)
    requires |value| == 3 && i <= |SPLIT_KEYS|
  {
    && (forall j | 0 <= j < i ::
          ResolvePlain(store, SPLIT_KEYS[j]).Value? && ResolvePlain(store, SPLIT_KEYS[j]).value == [value[j]])
    && found == exists j | 0 <= j < i :: ResolvePlain(store, SPLIT_KEYS[j]).found
  }

  lemma SplitOneMore(store: Store, i: nat, value: seq<byte>, found: bool, one: seq<byte>, present: bool)
    requires |value| == 3 && i < |SPLIT_KEYS| && SplitSoFar(store, i, value, found)
    requires ResolvePlain(store, SPLIT_KEYS[i]) == Value(one, present) && |one| == 1
    ensures SplitSoFar(store, i + 1, value[i := one[0]], found || present)
  {
  }

  /** Without a record, the first split key that fails decides. */
  lemma SplitFails(p: Env, store: Store, i: nat, value: seq<byte>, found: bool)
    requires Stored(store, Name(Lorawan, JoinPolicy)) == []
    requires i < |SPLIT_KEYS| && |value| == 3 && SplitSoFar(store, i, value, found)
    ensures var o := ResolvePlain(store, SPLIT_KEYS[i]); o.Failure? ==> ResolvePolicy(p, store) == o
  {
    if i > 0 {
      assert ResolvePlain(store, SPLIT_KEYS[0]).Value?;
    }
    if i > 1 {
      assert ResolvePlain(store, SPLIT_KEYS[1]).Value?;
    }
  }

  lemma SplitCombines(p: Env, store: Store, value: seq<byte>, found: bool)
    requires Stored(store, Name(Lorawan, JoinPolicy)) == []
    requires |value| == 3 && SplitSoFar(store, 3, value, found)
    ensures ResolvePolicy(p, store) == Value(value, found)
  {
    var a, b, c := ResolvePlain(store, AutoJoin), ResolvePlain(store, JoinInterval), ResolvePlain(store, JoinAttempts);
    assert SPLIT_KEYS[0] == AutoJoin && SPLIT_KEYS[1] == JoinInterval && SPLIT_KEYS[2] == JoinAttempts;
    assert value == [value[0]] + [value[1]] + [value[2]] == a.value + b.value + c.value;
    assert found == (a.found || b.found || c.found);
  }

  /** One name, whose row the sweep has passed or not. */
  predicate NameSwept(before: Store, after: Store, ns: Namespace, m: Name, passed: bool, failed: set<Name>) {
    && Stored(after, m) == (if m.ns == ns && passed && m !in failed then [] else Stored(before, m))
    && (m in failed ==> m.ns == ns && passed)
  }

  /** The first `i` names of a namespace are gone but for the failed ones; nothing else has changed. */
  ghost predicate Swept(before: Store, after: Store, ns: Namespace, i: nat, failed: set<Name>) {
    forall m: Name {:trigger Stored(after, m)} {:trigger Stored(before, m)} {:trigger m in failed} ::
      NameSwept(before, after, ns, m, Row(m.key) < i, failed)
  }

  lemma NothingSwept(store: Store, ns: Namespace)
    ensures Swept(store, store, ns, 0, {})
  {
    forall m: Name
      ensures NameSwept(store, store, ns, m, Row(m.key) < 0, {})
    {
      assert 0 <= Row(m.key);
    }
  }

  lemma SweepName(first: Store, before: Store, after: Store, name: Name, m: Name, passed: bool, failed: set<Name>,
                  faulted: bool)
    requires NameSwept(first, before, name.ns, m, passed, failed) && (m == name ==> !passed)
    requires if faulted then after == before else Stored(after, name) == []
    requires m != name ==> Stored(after, m) == Stored(before, m)
    ensures NameSwept(first, after, name.ns, m, passed || m.key == name.key,
                      if faulted then failed + {name} else failed)
  {
  }

  lemma SweepOne(first: Store, before: Store, after: Store, ns: Namespace, i: nat, failed: set<Name>, faulted: bool)
    requires i < |TABLE| && Swept(first, before, ns, i, failed)
    requires if faulted then after == before else Stored(after, Name(ns, TABLE[i])) == []
    requires forall n: Name :: n != Name(ns, TABLE[i]) ==> Stored(after, n) == Stored(before, n)
    ensures Swept(first, after, ns, i + 1, if faulted then failed + {Name(ns, TABLE[i])} else failed)
  {
    var name := Name(ns, TABLE[i]);
    var failed' := if faulted then failed + {name} else failed;
    forall m: Name
      ensures NameSwept(first, after, ns, m, Row(m.key) < i + 1, failed')
    {
      RowsUpTo(i, m.key);
      SweepName(first, before, after, name, m, Row(m.key) < i, failed, faulted);
    }
  }

  lemma RowsUpTo(i: nat, k: Key)
    requires i < |TABLE|
    ensures Row(k) < i + 1 <==> Row(k) < i || k == TABLE[i]
    ensures Row(TABLE[i]) == i
  {
    RowsAreDistinct(i);
  }
}
