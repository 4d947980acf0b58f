/** PM lock accounting: a runtime switch and five reference counters over one native lock, and their clients. */
module PowerLocks {
  import opened Errors
  import opened Bytes
  import opened ChannelMask

  const LOCKS := 5
  const LORAWAN := 1
  const FLASH := 2
  const MAX_COUNT := 255

  type Counts = c: seq<byte> | |c| == LOCKS witness [0, 0, 0, 0, 0]
  type Ledger = c: seq<int> | |c| == LOCKS witness [0, 0, 0, 0, 0]

  datatype FuotaState = Idle | Ready | Transferring | Complete | Failed | Applying

  /**
   * The counters and the switch, the native count of the kernel, the flags of the clients, and a ledger: what the
   * application has taken and not returned, and how many client releases found their counter empty.
   */
  datatype State = State(
    counts: Counts, pmLocked: bool, native: int,
    classCHeld: bool, fuota: FuotaState, flashHeld: bool, writing: bool,
    app: Ledger, missed: Ledger)

  const BOOT := State([0, 0, 0, 0, 0], false, 0, false, Idle, false, false, [0, 0, 0, 0, 0], [0, 0, 0, 0, 0])

  // ----- The locks -----

  function GetRc(s: State, lock: int): int {
    if !(0 <= lock < LOCKS) then ERR_INVALID else if s.counts[lock] == MAX_COUNT then ERR_NO_RESOURCE else OK
  }

  function Get(s: State, lock: int): State {
    if GetRc(s, lock) != OK then s else s.(counts := s.counts[lock := s.counts[lock] + 1], native := s.native + 1)
  }

  function PutRc(s: State, lock: int): int {
    if !(0 <= lock < LOCKS) || s.counts[lock] == 0 then ERR_INVALID else OK
  }

  function Put(s: State, lock: int): State {
    if PutRc(s, lock) != OK then s else s.(counts := s.counts[lock := s.counts[lock] - 1], native := s.native - 1)
  }

  function SetPm(s: State, enabled: bool): State {
    if !enabled && !s.pmLocked then s.(pmLocked := true, native := s.native + 1)
    else if enabled && s.pmLocked then s.(pmLocked := false, native := s.native - 1)
    else s
  }

  // ----- The clients -----

  function NoteClass(s: State, classC: bool): State {
    if classC && !s.classCHeld && GetRc(s, LORAWAN) == OK then Get(s, LORAWAN).(classCHeld := true)
    else if !classC && s.classCHeld then
      if PutRc(s, LORAWAN) == OK then Put(s, LORAWAN).(classCHeld := false) else s
    else s
  }

  predicate WantsFlash(f: FuotaState) {
    f.Transferring? || f.Applying?
  }

  /** The result of the release is not looked at. */
  function SetFuota(s: State, next: FuotaState): State {
    var t := s.(fuota := next);
    if s.fuota == next then s
    else if WantsFlash(next) && !s.flashHeld && GetRc(s, FLASH) == OK then Get(t, FLASH).(flashHeld := true)
    else if !WantsFlash(next) && s.flashHeld then Release(t).(flashHeld := false)
    else t
  }

  function Release(s: State): State {
    if PutRc(s, FLASH) == OK then Put(s, FLASH) else s.(missed := s.missed[FLASH := s.missed[FLASH] + 1])
  }

  /** A settings write takes the lock or fails. */
  function BeginWrite(s: State): State {
    if GetRc(s, FLASH) == OK then Get(s, FLASH).(writing := true) else s
  }

  function EndWrite(s: State): State {
    Release(s).(writing := false)
  }

  function AppGet(s: State, lock: int): State {
    if GetRc(s, lock) == OK then Get(s, lock).(app := s.app[lock := s.app[lock] + 1]) else s
  }

  function AppPut(s: State, lock: int): State {
    if PutRc(s, lock) == OK then Put(s, lock).(app := s.app[lock := s.app[lock] - 1]) else s
  }

  datatype Step =
    | Switch(enabled: bool)
    | AppTakes(lock: int) | AppReturns(lock: int)
    | ClassNoted(classC: bool)
    | FuotaMoves(next: FuotaState)
    | WriteBegins | WriteEnds

  /** Writes are serialised by the storage mutex. */
  predicate Enabled(s: State, step: Step) {
    match step
    case WriteBegins => !s.writing
    case WriteEnds => s.writing
    case _ => true
  }

  function Next(s: State, step: Step): State
    requires Enabled(s, step)
  {
    match step
    case Switch(enabled) => SetPm(s, enabled)
    case AppTakes(lock) => AppGet(s, lock)
    case AppReturns(lock) => AppPut(s, lock)
    case ClassNoted(classC) => NoteClass(s, classC)
    case FuotaMoves(next) => SetFuota(s, next)
    case WriteBegins => BeginWrite(s)
    case WriteEnds => EndWrite(s)
  }

  predicate Runs(s: State, steps: seq<Step>)
    decreases |steps|
  {
    steps == [] || (Enabled(s, steps[0]) && Runs(Next(s, steps[0]), steps[1..]))
  }

  function After(s: State, steps: seq<Step>): State
    requires Runs(s, steps)
    decreases |steps|
  {
    if steps == [] then s else After(Next(s, steps[0]), steps[1..])
  }

  // ----- Conservation -----

  function One(b: bool): nat {
    if b then 1 else 0
  }

  function Total(c: Counts): nat {
    var a: nat, b: nat, d: nat, e: nat, f: nat := c[0], c[1], c[2], c[3], c[4];
    a + b + d + e + f
  }

  /** References the clients of this code hold. */
  function Held(s: State, lock: nat): nat {
    if lock == LORAWAN then One(s.classCHeld) else if lock == FLASH then One(s.flashHeld) + One(s.writing) else 0
  }

  /** Every reference has an owner, the native lock adds them all up, and FUOTA holds flash only while it works. */
  ghost predicate Balanced(s: State) {
    && s.native == One(s.pmLocked) + Total(s.counts)
    && (forall i | 0 <= i < LOCKS :: s.counts[i] == s.app[i] + Held(s, i) + s.missed[i] && s.missed[i] >= 0)
    && (s.flashHeld ==> WantsFlash(s.fuota))
  }

  lemma GetBalances(s: State, lock: nat)
    requires lock < LOCKS && GetRc(s, lock) == OK
    ensures Total(Get(s, lock).counts) == Total(s.counts) + 1
  {
  }

  lemma PutBalances(s: State, lock: nat)
    requires lock < LOCKS && PutRc(s, lock) == OK
    ensures Total(Put(s, lock).counts) == Total(s.counts) - 1
  {
  }

  lemma AppTakeBalances(s: State, lock: int)
    requires Balanced(s)
    ensures Balanced(AppGet(s, lock)) && AppGet(s, lock).missed == s.missed
  {
    if GetRc(s, lock) == OK {
      GetBalances(s, lock);
    }
  }

  lemma AppReturnBalances(s: State, lock: int)
    requires Balanced(s)
    ensures Balanced(AppPut(s, lock)) && AppPut(s, lock).missed == s.missed
  {
    if PutRc(s, lock) == OK {
      PutBalances(s, lock);
    }
  }

  lemma ClassStepBalances(s: State, classC: bool)
    requires Balanced(s)
    ensures Balanced(NoteClass(s, classC)) && NoteClass(s, classC).missed == s.missed
  {
    if classC && GetRc(s, LORAWAN) == OK {
      GetBalances(s, LORAWAN);
    } else if !classC && PutRc(s, LORAWAN) == OK {
      PutBalances(s, LORAWAN);
    }
  }

  lemma FuotaTakes(s: State, next: FuotaState)
    requires Balanced(s) && s.fuota != next && WantsFlash(next) && !s.flashHeld && GetRc(s, FLASH) == OK
    ensures Balanced(SetFuota(s, next)) && SetFuota(s, next).missed == s.missed
  {
    GetBalances(s, FLASH);
  }

  lemma FuotaReleases(s: State, next: FuotaState)
    requires Balanced(s) && s.fuota != next && !WantsFlash(next) && s.flashHeld
    ensures Balanced(SetFuota(s, next))
    ensures s.app[FLASH] >= 0 ==> SetFuota(s, next).missed == s.missed
  {
    if PutRc(s, FLASH) == OK {
      PutBalances(s, FLASH);
    }
  }

  lemma FuotaStepBalances(s: State, next: FuotaState)
    requires Balanced(s)
    ensures Balanced(SetFuota(s, next))
    ensures s.app[FLASH] >= 0 ==> SetFuota(s, next).missed == s.missed
  {
    if s.fuota != next {
      if WantsFlash(next) && !s.flashHeld && GetRc(s, FLASH) == OK {
        FuotaTakes(s, next);
      } else if !WantsFlash(next) && s.flashHeld {
        FuotaReleases(s, next);
      }
    }
  }

  lemma WriteStepBalances(s: State, step: Step)
    requires Balanced(s) && (step.WriteBegins? || step.WriteEnds?) && Enabled(s, step)
    ensures Balanced(Next(s, step))
    ensures s.app[FLASH] >= 0 ==> Next(s, step).missed == s.missed
  {
    if step.WriteBegins? && GetRc(s, FLASH) == OK {
      GetBalances(s, FLASH);
    } else if step.WriteEnds? && PutRc(s, FLASH) == OK {
      PutBalances(s, FLASH);
    }
  }

  lemma StepBalances(s: State, step: Step)
    requires Balanced(s) && Enabled(s, step)
    ensures Balanced(Next(s, step))
    ensures s.app[FLASH] >= 0 ==> Next(s, step).missed == s.missed
  {
    match step
    case ClassNoted(classC) => ClassStepBalances(s, classC);
    case FuotaMoves(next) => FuotaStepBalances(s, next);
    case WriteBegins => WriteStepBalances(s, step);
    case WriteEnds => WriteStepBalances(s, step);
    case AppTakes(lock) => AppTakeBalances(s, lock);
    case AppReturns(lock) => AppReturnBalances(s, lock);
    case Switch(_) =>
  }

  /** Over every run: the native count is the switch plus all counters, and every counter is accounted for. */
  lemma {:induction false} RunBalances(s: State, steps: seq<Step>)
    requires Balanced(s) && Runs(s, steps)
    ensures Balanced(After(s, steps))
    decreases |steps|
  {
    if steps != [] {
      StepBalances(s, steps[0]);
      RunBalances(Next(s, steps[0]), steps[1..]);
    }
  }

  /** The application never returns a reference it has not taken. */
  predicate Fair(s: State, steps: seq<Step>)
    requires Runs(s, steps)
    decreases |steps|
  {
    && (forall i | 0 <= i < LOCKS :: s.app[i] >= 0)
    && (steps != [] ==> Fair(Next(s, steps[0]), steps[1..]))
  }

  /**
   * With a fair application every client release succeeds: each counter is exactly what the application and the
   * clients hold, so it is non-zero exactly while someone holds it.
   */
  lemma {:induction false} FairRunConserves(s: State, steps: seq<Step>)
    requires Balanced(s) && Runs(s, steps) && Fair(s, steps)
    requires forall i | 0 <= i < LOCKS :: s.missed[i] == 0
    ensures var e := After(s, steps);
            && (forall i | 0 <= i < LOCKS :: e.counts[i] == e.app[i] + Held(e, i) && e.app[i] >= 0)
            && (e.classCHeld ==> PutRc(e, LORAWAN) == OK)
            && (e.flashHeld || e.writing ==> PutRc(e, FLASH) == OK)
    decreases |steps|
  {
    if steps != [] {
      StepBalances(s, steps[0]);
      FairRunConserves(Next(s, steps[0]), steps[1..]);
    }
  }

  /**
   * In every reachable state, and for every lock: the references of the clients are all there if and only if the
   * application has not returned more of them than it took, beyond the client releases that already missed.
   */
  lemma ClientsBackedIff(steps: seq<Step>, lock: nat)
    requires lock < LOCKS && Runs(BOOT, steps)
    ensures var e := After(BOOT, steps);
            && (e.counts[lock] >= Held(e, lock) <==> e.app[lock] + e.missed[lock] >= 0)
            && (e.missed[lock] == 0 ==> (e.counts[lock] >= Held(e, lock) <==> e.app[lock] >= 0))
            && (lock != FLASH ==> e.missed[lock] == 0)
  {
    RunBalances(BOOT, steps);
    OnlyFlashMisses(BOOT, steps);
  }

  /** The missed releases of every lock but the one for flash. */
  predicate SameMisses(a: State, b: State) {
    a.missed[0] == b.missed[0] && a.missed[1] == b.missed[1] && a.missed[3] == b.missed[3] && a.missed[4] == b.missed[4]
  }

  lemma StepMissesFlash(s: State, step: Step)
    requires Enabled(s, step)
    ensures SameMisses(s, Next(s, step))
  {
  }

  lemma {:induction false} OnlyFlashMisses(s: State, steps: seq<Step>)
    requires Runs(s, steps)
    ensures SameMisses(s, After(s, steps))
    decreases |steps|
  {
    if steps != [] {
      StepMissesFlash(s, steps[0]);
      OnlyFlashMisses(Next(s, steps[0]), steps[1..]);
    }
  }

  /**
   * The releases of both clients, in every reachable state: one misses exactly when nothing of the lock is left, and
   * then the application has returned at least as many references too many as the clients hold.
   */
  lemma ReleaseMissesOnlyOverdrawn(steps: seq<Step>)
    requires Runs(BOOT, steps)
    ensures var e := After(BOOT, steps);
            && (e.classCHeld && NoteClass(e, false).classCHeld <==> e.classCHeld && e.app[LORAWAN] == -1)
            && (Held(e, FLASH) > 0 ==>
                  (Release(e).missed != e.missed <==> e.app[FLASH] + e.missed[FLASH] + Held(e, FLASH) == 0))
  {
    RunBalances(BOOT, steps);
    OnlyFlashMisses(BOOT, steps);
  }

  /** The failing case is reachable: the application returns the reference of a transfer that is still running. */
  lemma TransferCanLoseItsLock()
    ensures var steps := [FuotaMoves(Transferring), AppReturns(FLASH)];
            Runs(BOOT, steps) && After(BOOT, steps).flashHeld && After(BOOT, steps).counts[FLASH] == 0
  {
    var steps := [FuotaMoves(Transferring), AppReturns(FLASH)];
    var s := Next(BOOT, steps[0]);
    assert s.counts == [0, 0, 1, 0, 0] && s.flashHeld;
    assert steps[1..][1..] == [];
    assert Runs(Next(s, steps[1]), steps[1..][1..]);
    assert After(s, steps[1..]) == Next(s, steps[1]);
  }

  // ----- What the clients hold, and when -----

  /** The states in which firmware is received or put in place. */
  predicate Working(f: FuotaState) {
    f == Transferring || f == Applying
  }

  /** No step of the run finds a counter full, and every class note that lowers finds its reference. */
  predicate NeverRefused(s: State, steps: seq<Step>)
    requires Runs(s, steps)
    decreases |steps|
  {
    && s.counts[LORAWAN] < MAX_COUNT && s.counts[FLASH] < MAX_COUNT
    && (s.classCHeld ==> s.counts[LORAWAN] > 0)
    && (steps != [] ==> NeverRefused(Next(s, steps[0]), steps[1..]))
  }

  /** The last class that was noted, the last FUOTA state and the last setting of the switch. */
  function LastClassC(steps: seq<Step>, none: bool): bool {
    if steps == [] then none
    else LastClassC(steps[1..], if steps[0].ClassNoted? then steps[0].classC else none)
  }

  function LastFuota(steps: seq<Step>, none: FuotaState): FuotaState {
    if steps == [] then none
    else LastFuota(steps[1..], if steps[0].FuotaMoves? then steps[0].next else none)
  }

  function LastSwitch(steps: seq<Step>, none: bool): bool {
    if steps == [] then none
    else LastSwitch(steps[1..], if steps[0].Switch? then steps[0].enabled else none)
  }

  /** Flash is held exactly while FUOTA works. */
  predicate HeldRightly(s: State) {
    s.flashHeld <==> Working(s.fuota)
  }

  lemma FuotaHolds(s: State, next: FuotaState)
    requires HeldRightly(s) && s.counts[FLASH] < MAX_COUNT
    ensures HeldRightly(SetFuota(s, next)) && SetFuota(s, next).fuota == next
    ensures var t := SetFuota(s, next);
            && (Working(next) && !Working(s.fuota) ==> t.counts == s.counts[FLASH := s.counts[FLASH] + 1])
            && (!Working(next) && Working(s.fuota) && s.counts[FLASH] > 0 ==>
                  t.counts == s.counts[FLASH := s.counts[FLASH] - 1])
            && (Working(next) == Working(s.fuota) ==> t.counts == s.counts)
  {
    if s.fuota != next && Working(next) && !Working(s.fuota) {
      FuotaTakesFlash(s, next);
    }
  }

  lemma FuotaTakesFlash(s: State, next: FuotaState)
    requires s.fuota != next && Working(next) && !s.flashHeld && s.counts[FLASH] < MAX_COUNT
    ensures SetFuota(s, next).flashHeld && SetFuota(s, next).counts == s.counts[FLASH := s.counts[FLASH] + 1]
  {
  }

  lemma StepHolds(s: State, step: Step)
    requires Enabled(s, step) && HeldRightly(s) && s.counts[LORAWAN] < MAX_COUNT && s.counts[FLASH] < MAX_COUNT
    requires s.classCHeld ==> s.counts[LORAWAN] > 0
    ensures HeldRightly(Next(s, step))
    ensures Next(s, step).fuota == if step.FuotaMoves? then step.next else s.fuota
    ensures Next(s, step).classCHeld == if step.ClassNoted? then step.classC else s.classCHeld
    ensures Next(s, step).pmLocked == if step.Switch? then !step.enabled else s.pmLocked
  {
    if step.FuotaMoves? {
      FuotaHolds(s, step.next);
    }
  }

  lemma {:induction false} RunHolds(s: State, steps: seq<Step>)
    requires Runs(s, steps) && HeldRightly(s) && NeverRefused(s, steps)
    ensures var e := After(s, steps);
            && HeldRightly(e) && e.fuota == LastFuota(steps, s.fuota)
            && e.classCHeld == LastClassC(steps, s.classCHeld)
            && e.pmLocked == !LastSwitch(steps, !s.pmLocked)
    decreases |steps|
  {
    if steps != [] {
      StepHolds(s, steps[0]);
      RunHolds(Next(s, steps[0]), steps[1..]);
    }
  }

  /**
   * Over every run from boot in which no lock is refused: the flash lock is held by FUOTA exactly while it transfers
   * or applies, the LoRaWAN lock by the class exactly while the last class noted was C, and the native lock is free
   * exactly when the switch was last enabled (or never used) and no counter is in use.
   */
  lemma LocksFollowUse(steps: seq<Step>)
    requires Runs(BOOT, steps) && NeverRefused(BOOT, steps)
    ensures var e := After(BOOT, steps);
            && (e.flashHeld <==> LastFuota(steps, Idle) == Transferring || LastFuota(steps, Idle) == Applying)
            && (e.classCHeld <==> LastClassC(steps, false))
            && (e.native == 0 <==> LastSwitch(steps, true) && e.counts == [0, 0, 0, 0, 0])
  {
    RunHolds(BOOT, steps);
    RunBalances(BOOT, steps);
  }

  /** With a fair application the flash counter is in use while firmware is received or put in place. */
  lemma WorkKeepsFlashAwake(steps: seq<Step>)
    requires Runs(BOOT, steps) && NeverRefused(BOOT, steps) && Fair(BOOT, steps)
    ensures Working(LastFuota(steps, Idle)) ==> After(BOOT, steps).counts[FLASH] > 0 && After(BOOT, steps).native > 0
    ensures After(BOOT, steps).writing ==> After(BOOT, steps).counts[FLASH] > 0
    ensures LastClassC(steps, false) ==> After(BOOT, steps).counts[LORAWAN] > 0
  {
    RunHolds(BOOT, steps);
    RunBalances(BOOT, steps);
    FairRunConserves(BOOT, steps);
  }

  // ----- The file as written -----

  class Power {
    const lockCounts: array<byte>
    var isPmLocked: bool
    ghost var native: int

    ghost predicate Valid() {
      lockCounts.Length == LOCKS
    }

    constructor ()
      ensures Valid() && fresh(lockCounts) && lockCounts[..] == BOOT.counts && !isPmLocked && native == 0
    {
      lockCounts := new byte[LOCKS](_ => 0);
      isPmLocked, native := false, 0;
    }

    /** One bit for each counter in use. */
    method LockMask() returns (mask: nat)
      requires Valid()
      ensures mask < Pow2(LOCKS)
      ensures forall i: nat :: Bit(mask, i) <==> i < LOCKS && lockCounts[i] != 0
    {
      mask := 0;
      forall i: nat
        ensures !Bit(0, i)
      {
        ZeroHasNoBit(i);
      }
      for i := 0 to LOCKS
        invariant mask < Pow2(LOCKS)
        invariant forall j: nat :: Bit(mask, j) <==> j < i && lockCounts[j] != 0
      {
        if lockCounts[i] != 0 {
          SetBitBound(mask, i, LOCKS);
          forall j: nat
            ensures Bit(SetBit(mask, i), j) == (i == j || Bit(mask, j))
          {
            BitAfterSetBit(mask, i, j);
          }
          mask := SetBit(mask, i);
        }
      }
    }

    method SetPmEnabled(enabled: bool)
      modifies this
      ensures isPmLocked == !enabled && native == old(native) + One(isPmLocked) - One(old(isPmLocked))
    {
      if !enabled && !isPmLocked {
        native := native + 1;
        isPmLocked := true;
      } else if enabled && isPmLocked {
        native := native - 1;
        isPmLocked := false;
      }
    }

    method LockGet(lock: int) returns (rc: int)
      requires Valid()
      modifies this`native, lockCounts
      ensures rc == (if !(0 <= lock < LOCKS) then ERR_INVALID
                     else if old(lockCounts[lock]) == MAX_COUNT then ERR_NO_RESOURCE else OK)
      ensures if rc != OK then lockCounts[..] == old(lockCounts[..]) && native == old(native)
              else lockCounts[..] == old(lockCounts[..])[lock := old(lockCounts[lock]) + 1] && native == old(native) + 1
    {
      if !(0 <= lock < LOCKS) {
        return ERR_INVALID;
      }
      if lockCounts[lock] == MAX_COUNT {
        return ERR_NO_RESOURCE;
      }
      native := native + 1;
      lockCounts[lock] := lockCounts[lock] + 1;
      rc := OK;
    }

    method LockPut(lock: int) returns (rc: int)
      requires Valid()
      modifies this`native, lockCounts
      ensures rc == if !(0 <= lock < LOCKS) || old(lockCounts[lock]) == 0 then ERR_INVALID else OK
      ensures if rc != OK then lockCounts[..] == old(lockCounts[..]) && native == old(native)
              else lockCounts[..] == old(lockCounts[..])[lock := old(lockCounts[lock]) - 1] && native == old(native) - 1
    {
      if !(0 <= lock < LOCKS) {
        return ERR_INVALID;
      }
      if lockCounts[lock] == 0 {
        return ERR_INVALID;
      }
      lockCounts[lock] := lockCounts[lock] - 1;
      native := native - 1;
      rc := OK;
    }
  }

  /** The flags of the three clients, each in its own file of the repository. */
  class Clients {
    const power: Power
    var classCHeld: bool
    var fuota: FuotaState
    var flashHeld: bool
    ghost var writing: bool
    ghost var app: Ledger
    ghost var missed: Ledger

    ghost function Now(): State
      requires power.Valid()
      reads this, power, power.lockCounts
    {
      State(power.lockCounts[..], power.isPmLocked, power.native, classCHeld, fuota, flashHeld, writing, app, missed)
    }

    constructor (power: Power)
      requires power.Valid()
      ensures this.power == power
      ensures power.lockCounts[..] == BOOT.counts && !power.isPmLocked && power.native == 0 ==> Now() == BOOT
    {
      this.power := power;
      classCHeld, fuota, flashHeld, writing := false, Idle, false, false;
      app, missed := BOOT.app, BOOT.missed;
    }

    method UpdateClassC(classC: bool)
      requires power.Valid()
      modifies this, power, power.lockCounts
      ensures Now() == NoteClass(old(Now()), classC)
    {
      if classC && !classCHeld {
        var rc := power.LockGet(LORAWAN);
        if rc == OK {
          classCHeld := true;
        }
      } else if !classC && classCHeld {
        var rc := power.LockPut(LORAWAN);
        if rc == OK {
          classCHeld := false;
        }
      }
    }

    /** Gives a flash reference back without looking at the result. */
    method ReleaseFlash()
      requires power.Valid()
      modifies this`missed, power, power.lockCounts
      ensures Now() == Release(old(Now()))
    {
      var rc := power.LockPut(FLASH);
      if rc != OK {
        missed := missed[FLASH := missed[FLASH] + 1];
      }
    }

    method SetState(next: FuotaState)
      requires power.Valid()
      modifies this, power, power.lockCounts
      ensures Now() == SetFuota(old(Now()), next)
    {
      if fuota == next {
        return;
      }
      fuota := next;
      var want := next.Transferring? || next.Applying?;
      if want && !flashHeld {
        var rc := power.LockGet(FLASH);
        if rc == OK {
          flashHeld := true;
        }
      } else if !want && flashHeld {
        ReleaseFlash();
        flashHeld := false;
      }
    }

    /** The flash section of a settings write or delete; a refused lock refuses the write. */
    method StartWrite() returns (rc: int)
      requires power.Valid() && !writing
      modifies this, power, power.lockCounts
      ensures rc == GetRc(old(Now()), FLASH) && Now() == BeginWrite(old(Now()))
    {
      rc := power.LockGet(FLASH);
      if rc == OK {
        writing := true;
      }
    }

    method FinishWrite()
      requires power.Valid() && writing
      modifies this, power, power.lockCounts
      ensures Now() == EndWrite(old(Now()))
    {
      ReleaseFlash();
      writing := false;
    }
  }
}
