/** The Class B state of the USP backend: set before the modem is asked, rolled back if it refuses, published once. */
module ClassBTrace {
  import opened Options
  import opened Errors

  datatype DeviceClass = ClassA | ClassB | ClassC | Other

  datatype Phase = Idle | AcquiringBeacon | Active

  datatype Status = Ready | NotReady | Unknown

  /** `trace` is what the event sink has received. */
  datatype State = State(ready: bool, phase: Phase, trace: seq<Phase>)

  const BOOT := State(false, Idle, [])

  function PhaseFor(c: DeviceClass): Phase {
    if c == ClassB then AcquiringBeacon else Idle
  }

  /** Moves to a phase and publishes the move. */
  function Enter(s: State, next: Phase): State {
    if s.phase == next then s else s.(phase := next, trace := s.trace + [next])
  }

  /** `modemRc` is what the modem says to the new class. */
  function SetClass(s: State, c: DeviceClass, modemRc: int): (r: (State, int)) {
    if !s.ready then (s, ERR_NOT_READY)
    else if c == Other then (s, ERR_INVALID)
    else if modemRc != OK then (s, modemRc)
    else (Enter(s, PhaseFor(c)), OK)
  }

  function StopClassB(s: State, modemRc: int): (r: (State, int)) {
    if !s.ready then (s, ERR_NOT_READY)
    else if modemRc != OK then (s, modemRc)
    else (Enter(s, Idle), OK)
  }

  function OnStatus(s: State, status: Status): State {
    match status
    case Ready => Enter(s, Active)
    case NotReady => Enter(s, Idle)
    case Unknown => s
  }

  datatype Step =
    | Reset(configured: bool) | Call(c: DeviceClass, modemRc: int) | Stop(modemRc: int) | Report(status: Status)

  function Next(s: State, step: Step): State {
    match step
    case Reset(configured) => s.(ready := configured)
    case Call(c, modemRc) => SetClass(s, c, modemRc).0
    case Stop(modemRc) => StopClassB(s, modemRc).0
    case Report(status) => OnStatus(s, status)
  }

  function After(s: State, steps: seq<Step>): State
    decreases |steps|
  {
    if steps == [] then s else After(Next(s, steps[0]), steps[1..])
  }

  // ----- What subscribers can rely on -----

  function Last(trace: seq<Phase>): Phase {
    if trace == [] then Idle else trace[|trace| - 1]
  }

  /** No phase is published twice in a row, none repeats the initial one, and the last is the current phase. */
  predicate Faithful(s: State) {
    && Last(s.trace) == s.phase
    && (s.trace != [] ==> s.trace[0] != Idle)
    && forall i | 0 <= i < |s.trace| - 1 :: s.trace[i] != s.trace[i + 1]
  }

  lemma EnterKeepsFaithful(s: State, next: Phase)
    requires Faithful(s)
    ensures Faithful(Enter(s, next))
  {
    if s.phase != next {
      var t := s.trace + [next];
      forall i | 0 <= i < |t| - 1
        ensures t[i] != t[i + 1]
      {
        if i + 1 == |s.trace| {
          assert t[i] == Last(s.trace);
        }
      }
    }
  }

  lemma StepKeepsFaithful(s: State, step: Step)
    requires Faithful(s)
    ensures Faithful(Next(s, step)) && s.trace <= Next(s, step).trace
  {
    EnterKeepsFaithful(s, Idle);
    EnterKeepsFaithful(s, AcquiringBeacon);
    EnterKeepsFaithful(s, Active);
  }

  /** Whatever the modem refuses and reports, between any two calls the trace tells the phase, change by change. */
  lemma {:induction false} TraceIsFaithful(s: State, steps: seq<Step>)
    requires Faithful(s)
    ensures Faithful(After(s, steps)) && s.trace <= After(s, steps).trace
    decreases |steps|
  {
    if steps != [] {
      StepKeepsFaithful(s, steps[0]);
      TraceIsFaithful(Next(s, steps[0]), steps[1..]);
    }
  }

  /** A refused class change leaves no trace; an accepted one ends in the phase of its class, published last. */
  lemma RefusalIsInvisible(s: State, c: DeviceClass, modemRc: int)
    requires Faithful(s)
    ensures var (t, rc) := SetClass(s, c, modemRc);
            && (rc == OK <==> s.ready && c != Other && modemRc == OK)
            && (rc != OK ==> t == s)
            && (rc == OK ==> Last(t.trace) == t.phase == (if c == ClassB then AcquiringBeacon else Idle))
  {
    EnterKeepsFaithful(s, PhaseFor(c));
  }

  /** The phase an input asks for, if it is heeded: accepted class changes and stops, and the two beacon reports. */
  function Asked(ready: bool, step: Step): Option<Phase> {
    match step
    case Call(ClassB, modemRc) => if ready && modemRc == 0 then Some(AcquiringBeacon) else None
    case Call(ClassA, modemRc) => if ready && modemRc == 0 then Some(Idle) else None
    case Call(ClassC, modemRc) => if ready && modemRc == 0 then Some(Idle) else None
    case Stop(modemRc) => if ready && modemRc == 0 then Some(Idle) else None
    case Report(Ready) => Some(Active)
    case Report(NotReady) => Some(Idle)
    case _ => None
  }

  /** The phase the last heeded input of a run asked for. */
  function LastAsked(ready: bool, steps: seq<Step>, phase: Phase): Phase
    decreases |steps|
  {
    if steps == [] then phase
    else
      var asked := Asked(ready, steps[0]);
      LastAsked(if steps[0].Reset? then steps[0].configured else ready, steps[1..],
                if asked.Some? then asked.value else phase)
  }

  lemma StepAsks(s: State, step: Step)
    ensures Next(s, step).phase == (if Asked(s.ready, step).Some? then Asked(s.ready, step).value else s.phase)
    ensures Next(s, step).ready == (if step.Reset? then step.configured else s.ready)
  {
  }

  /** Over every run the phase is that of the last heeded input: active by a beacon, acquiring by Class B, else idle. */
  lemma {:induction false} PhaseIsLastAsked(s: State, steps: seq<Step>)
    ensures After(s, steps).phase == LastAsked(s.ready, steps, s.phase)
    decreases |steps|
  {
    if steps != [] {
      StepAsks(s, steps[0]);
      PhaseIsLastAsked(Next(s, steps[0]), steps[1..]);
    }
  }

  /** What a class change and a stop return, and that a refused one changes nothing. */
  lemma CallsReturn(s: State, c: DeviceClass, modemRc: int)
    ensures SetClass(s, c, modemRc).1
         == if !s.ready then ERR_NOT_READY else if c == Other then ERR_INVALID else modemRc
    ensures StopClassB(s, modemRc).1 == if !s.ready then ERR_NOT_READY else modemRc
    ensures StopClassB(s, modemRc).1 != OK ==> StopClassB(s, modemRc).0 == s
    ensures SetClass(s, c, modemRc).1 != OK ==> SetClass(s, c, modemRc).0 == s
  {
  }

  // ----- The backend as written -----

  class Backend {
    var ready: bool
    var classBState: Phase
    ghost var trace: seq<Phase>

    ghost function Now(): State
      reads this
    {
      State(ready, classBState, trace)
    }

    constructor ()
      ensures Now() == BOOT
    {
      ready, classBState, trace := false, Idle, [];
    }

    method SetState(next: Phase) returns (changed: bool)
      modifies this`classBState
      ensures changed == (old(classBState) != next) && classBState == next
    {
      if classBState == next {
        return false;
      }
      classBState := next;
      return true;
    }

    method Publish(phase: Phase)
      modifies this`trace
      ensures trace == old(trace) + [phase]
    {
      trace := trace + [phase];
    }

    /** The state is changed before the modem is called and put back if it refuses. */
    method RequestClass(c: DeviceClass, modemRc: int) returns (rc: int)
      modifies this
      ensures Now() == SetClass(old(Now()), c, modemRc).0 && rc == SetClass(old(Now()), c, modemRc).1
    {
      if !ready {
        return ERR_NOT_READY;
      }
      var next;
      match c {
        case ClassA => next := Idle;
        case ClassB => next := AcquiringBeacon;
        case ClassC => next := Idle;
        case Other => return ERR_INVALID;
      }
      var previous := classBState;
      var changed := SetState(next);
      rc := modemRc;
      if rc != OK && changed {
        var _ := SetState(previous);
        changed := false;
      }
      if changed {
        Publish(next);
      }
    }

    method Stop(modemRc: int) returns (rc: int)
      modifies this
      ensures Now() == StopClassB(old(Now()), modemRc).0 && rc == StopClassB(old(Now()), modemRc).1
    {
      var notify := false;
      if !ready {
        return ERR_NOT_READY;
      }
      rc := modemRc;
      if rc == OK {
        notify := SetState(Idle);
      }
      if notify {
        Publish(Idle);
      }
    }

    method HandleStatus(status: Status)
      modifies this
      ensures Now() == OnStatus(old(Now()), status)
    {
      var next;
      match status {
        case Ready => next := Active;
        case NotReady => next := Idle;
        case Unknown => return;
      }
      var changed := SetState(next);
      if changed {
        Publish(next);
      }
    }
  }
}
