/**
 * The bounded event queue between the backends and the dispatcher thread. A put, the latching of a failed put, a
 * get, a dispatch, the overflow test and a report are the atomic steps; publishers and the dispatcher interleave in
 * any way, also between a failed put and its latch.
 */
module EventQueue {
  datatype Phase<E> = Waiting | Taken(event: E) | Dispatched | Reporting

  /** A published event, and whether the queue had room for it. */
  datatype Offer<E> = Offer(event: E, kept: bool)

  /**
   * `published` logs every event offered and `dispatched` the queue events dispatched. A drop is owed until its
   * publisher latches it, then unreported until the dispatcher takes the latch, then covered by a report.
   */
  datatype Queue<E> = Queue(capacity: nat, queue: seq<E>, overflow: bool, phase: Phase<E>,
                            published: seq<Offer<E>>, dispatched: seq<E>,
                            owed: nat, unreported: nat, covered: nat, reports: nat)

  /** The published events minus the drops. */
  function Kept<E>(log: seq<Offer<E>>): seq<E> {
    if log == [] then []
    else
      var last := log[|log| - 1];
      Kept(log[..|log| - 1]) + if last.kept then [last.event] else []
  }

  function Drops<E>(log: seq<Offer<E>>): nat {
    if log == [] then 0 else Drops(log[..|log| - 1]) + if log[|log| - 1].kept then 0 else 1
  }

  datatype Step<E> = Put(event: E) | Latch | Get | Dispatch | Test | Report

  function Empty<E>(capacity: nat): Queue<E> {
    Queue(capacity, [], false, Waiting, [], [], 0, 0, 0, 0)
  }

  predicate Fits<E>(q: Queue<E>) {
    |q.queue| < q.capacity
  }

  /** A put never blocks; if it fails, its publisher owes a latch. */
  function TryPut<E>(q: Queue<E>, e: E): Queue<E> {
    if Fits(q) then q.(queue := q.queue + [e], published := q.published + [Offer(e, true)])
    else q.(published := q.published + [Offer(e, false)], owed := q.owed + 1)
  }

  function SetLatch<E>(q: Queue<E>): Queue<E>
    requires q.owed > 0
  {
    q.(overflow := true, owed := q.owed - 1, unreported := q.unreported + 1)
  }

  /** A publish that nothing interrupts. */
  function Publish<E>(q: Queue<E>, e: E): Queue<E> {
    if Fits(q) then TryPut(q, e) else SetLatch(TryPut(q, e))
  }

  predicate Enabled<E>(q: Queue<E>, s: Step<E>) {
    match s
    case Put(_) => true
    case Latch => q.owed > 0
    case Get => q.phase.Waiting? && q.queue != []
    case Dispatch => q.phase.Taken?
    case Test => q.phase.Dispatched?
    case Report => q.phase.Reporting?
  }

  function Next<E>(q: Queue<E>, s: Step<E>): Queue<E>
    requires Enabled(q, s)
  {
    match s
    case Put(e) => TryPut(q, e)
    case Latch => SetLatch(q)
    case Get => q.(phase := Taken(q.queue[0]), queue := q.queue[1..])
    case Dispatch => q.(phase := Dispatched, dispatched := q.dispatched + [q.phase.event])
    case Test =>
      if q.overflow then
        q.(phase := Reporting, overflow := false, unreported := 0, covered := q.covered + q.unreported)
      else q.(phase := Waiting)
    case Report => q.(phase := Waiting, reports := q.reports + 1)
  }

  predicate Runs<E>(q: Queue<E>, steps: seq<Step<E>>)
    decreases |steps|
  {
    steps == [] || (Enabled(q, steps[0]) && Runs(Next(q, steps[0]), steps[1..]))
  }

  function After<E>(q: Queue<E>, steps: seq<Step<E>>): Queue<E>
    requires Runs(q, steps)
    decreases |steps|
  {
    if steps == [] then q else After(Next(q, steps[0]), steps[1..])
  }

  lemma {:induction false} RunsAppend<E>(q: Queue<E>, a: seq<Step<E>>, b: seq<Step<E>>)
    requires Runs(q, a) && Runs(After(q, a), b)
    ensures Runs(q, a + b) && After(q, a + b) == After(After(q, a), b)
    decreases |a|
  {
    if a == [] {
      assert a + b == b;
    } else {
      assert (a + b)[0] == a[0] && (a + b)[1..] == a[1..] + b;
      RunsAppend(Next(q, a[0]), a[1..], b);
    }
  }

  lemma OneStep<E>(q: Queue<E>, s: Step<E>)
    requires Enabled(q, s)
    ensures Runs(q, [s]) && After(q, [s]) == Next(q, s)
  {
    assert [s][1..] == [];
    assert Runs(Next(q, s), []);
  }

  // ----- Accounting -----

  function InHand<E>(phase: Phase<E>): seq<E> {
    if phase.Taken? then [phase.event] else []
  }

  /** Nothing is reordered, and every drop is owed, unreported or covered. */
  ghost predicate Sound<E>(q: Queue<E>) {
    && 0 < q.capacity && |q.queue| <= q.capacity
    && Kept(q.published) == q.dispatched + InHand(q.phase) + q.queue
    && Drops(q.published) == q.owed + q.unreported + q.covered
    && (q.overflow <==> q.unreported > 0)
  }

  lemma PutKeepsSound<E>(q: Queue<E>, e: E)
    requires Sound(q)
    ensures Sound(TryPut(q, e)) && Sound(Publish(q, e))
  {
    var log := TryPut(q, e).published;
    assert log[..|log| - 1] == q.published;
    assert (q.dispatched + InHand(q.phase) + q.queue) + [e] == q.dispatched + InHand(q.phase) + (q.queue + [e]);
  }

  lemma StepKeepsSound<E>(q: Queue<E>, s: Step<E>)
    requires Sound(q) && Enabled(q, s)
    ensures Sound(Next(q, s))
  {
    match s
    case Put(e) => PutKeepsSound(q, e);
    case Latch =>
    case Get => assert q.dispatched + [] + q.queue == q.dispatched + [q.queue[0]] + q.queue[1..];
    case Dispatch => assert (q.dispatched + [q.phase.event]) + [] == q.dispatched + [q.phase.event];
    case Test =>
    case Report =>
  }

  lemma {:induction false} RunKeepsSound<E>(q: Queue<E>, steps: seq<Step<E>>)
    requires Sound(q) && Runs(q, steps)
    ensures Sound(After(q, steps))
    decreases |steps|
  {
    if steps != [] {
      StepKeepsSound(q, steps[0]);
      RunKeepsSound(Next(q, steps[0]), steps[1..]);
    }
  }

  /** Over whole runs, what is dispatched is what was published, in order, minus the drops, each accounted for. */
  lemma DispatchedInOrder<E>(capacity: nat, steps: seq<Step<E>>)
    requires 0 < capacity && Runs(Empty(capacity), steps)
    ensures var q := After(Empty(capacity), steps);
            && q.dispatched <= Kept(q.published)
            && (q.queue == [] && q.phase.Waiting? ==> q.dispatched == Kept(q.published))
            && Drops(q.published) == q.owed + q.unreported + q.covered && (q.overflow <==> q.unreported > 0)
  {
    var q: Queue<E> := Empty(capacity);
    assert Sound(q);
    RunKeepsSound(q, steps);
  }

  // ----- When a latched drop waits for a new event -----

  /** The dispatcher is past its overflow test and has nothing more to take. */
  predicate Idle<E>(q: Queue<E>) {
    q.queue == [] && (q.phase.Waiting? || q.phase.Reporting?)
  }

  /** A latched drop that only a new event will bring to the dispatcher's notice. */
  predicate Exposed<E>(q: Queue<E>) {
    q.overflow && Idle(q)
  }

  /** A drop gets exposed exactly when its publisher latches it behind the back of an idle dispatcher. */
  lemma ExposedStepIff<E>(q: Queue<E>, s: Step<E>)
    requires 0 < q.capacity && Enabled(q, s) && !Exposed(q)
    ensures Exposed(Next(q, s)) <==> s.Latch? && Idle(q)
  {
  }

  predicate ByDispatcher<E>(s: Step<E>) {
    !s.Put? && !s.Latch?
  }

  predicate OwnSteps<E>(steps: seq<Step<E>>) {
    forall i | 0 <= i < |steps| :: ByDispatcher(steps[i])
  }

  function DispatcherSteps<E>(steps: seq<Step<E>>): nat {
    if steps == [] then 0 else (if ByDispatcher(steps[0]) then 1 else 0) + DispatcherSteps(steps[1..])
  }

  /** The report owed for a drop latched now comes after the one under way, if any. */
  function Goal<E>(q: Queue<E>): nat {
    q.reports + if q.phase.Reporting? then 2 else 1
  }

  /** The number of dispatcher steps after which at least `goal` reports have been made. */
  function Distance<E>(q: Queue<E>, goal: nat): nat {
    if q.reports >= goal then 0
    else match q.phase
      case Reporting => if q.reports + 1 >= goal then 1 else 5
      case Dispatched => 2
      case Taken(_) => 3
      case Waiting => 4
  }

  ghost predicate Owed<E>(q: Queue<E>, goal: nat) {
    || q.reports >= goal
    || (q.phase.Reporting? && q.reports + 1 >= goal)
    || (q.overflow && !Idle(q) && Goal(q) >= goal)
  }

  lemma StepApproaches<E>(q: Queue<E>, s: Step<E>, goal: nat)
    requires Enabled(q, s) && Owed(q, goal)
    ensures Owed(Next(q, s), goal)
    ensures Distance(Next(q, s), goal) <= Distance(q, goal)
    ensures ByDispatcher(s) && Distance(q, goal) > 0 ==> Distance(Next(q, s), goal) < Distance(q, goal)
  {
  }

  lemma {:induction false} OwedIsPaid<E>(q: Queue<E>, steps: seq<Step<E>>, goal: nat)
    requires Runs(q, steps) && Owed(q, goal) && DispatcherSteps(steps) >= Distance(q, goal)
    ensures After(q, steps).reports >= goal
    decreases |steps|
  {
    if steps != [] {
      StepApproaches(q, steps[0], goal);
      OwedIsPaid(Next(q, steps[0]), steps[1..], goal);
    }
  }

  /** The dispatcher can pay what is owed by itself. */
  lemma {:induction false} PayDebt<E>(q: Queue<E>, goal: nat) returns (steps: seq<Step<E>>)
    requires Owed(q, goal)
    ensures Runs(q, steps) && OwnSteps(steps) && After(q, steps).reports >= goal
    decreases Distance(q, goal)
  {
    if q.reports >= goal {
      steps := [];
    } else {
      var s: Step<E> := match q.phase
        case Waiting => Get
        case Taken(_) => Dispatch
        case Dispatched => Test
        case Reporting => Report;
      StepApproaches(q, s, goal);
      var rest := PayDebt(Next(q, s), goal);
      steps := [s] + rest;
      assert steps[1..] == rest;
    }
  }

  /** Left to itself, an idle dispatcher makes no report but the one under way. */
  lemma {:induction false} IdleStays<E>(q: Queue<E>, steps: seq<Step<E>>)
    requires Idle(q) && Runs(q, steps) && OwnSteps(steps)
    ensures After(q, steps).reports < Goal(q)
    decreases |steps|
  {
    if steps != [] {
      assert ByDispatcher(steps[0]);
      IdleStays(Next(q, steps[0]), steps[1..]);
    }
  }

  /**
   * Exactly when a loss is silent until a later event: a latch set in any reachable state is reported by the
   * dispatcher's own steps if and only if the dispatcher is not idle at that moment.
   */
  lemma LatchIsReportedIff<E>(q: Queue<E>)
    requires q.owed > 0
    ensures (exists steps: seq<Step<E>> ::
               Runs(SetLatch(q), steps) && OwnSteps(steps) && After(SetLatch(q), steps).reports >= Goal(q))
            <==> !Idle(q)
  {
    var latched := SetLatch(q);
    if Idle(q) {
      forall steps: seq<Step<E>> | Runs(latched, steps) && OwnSteps(steps)
        ensures After(latched, steps).reports < Goal(q)
      {
        IdleStays(latched, steps);
      }
    } else {
      var steps := PayDebt(latched, Goal(q));
    }
  }

  /** While something is owed, the dispatcher can move. */
  lemma DebtorCanMove<E>(q: Queue<E>, goal: nat)
    requires Owed(q, goal) && q.reports < goal
    ensures exists s: Step<E> :: ByDispatcher(s) && Enabled(q, s)
  {
    var s: Step<E> := match q.phase
      case Waiting => Get
      case Taken(_) => Dispatch
      case Dispatched => Test
      case Reporting => Report;
    assert ByDispatcher(s) && Enabled(q, s);
  }

  /**
   * Otherwise the report comes soon, whatever publishers do meanwhile: after at most five dispatcher steps, the
   * current turn and the next; and until then the dispatcher can move.
   */
  lemma DropIsReported<E>(q: Queue<E>, steps: seq<Step<E>>)
    requires q.owed > 0 && !Idle(q) && Runs(SetLatch(q), steps)
    ensures Distance(SetLatch(q), Goal(q)) <= 5
    ensures var e := After(SetLatch(q), steps);
            if DispatcherSteps(steps) >= Distance(SetLatch(q), Goal(q)) then e.reports >= Goal(q)
            else e.reports >= Goal(q) || exists s: Step<E> :: ByDispatcher(s) && Enabled(e, s)
  {
    var goal := Goal(q);
    if DispatcherSteps(steps) >= Distance(SetLatch(q), goal) {
      OwedIsPaid(SetLatch(q), steps, goal);
    } else {
      DebtStays(SetLatch(q), steps, goal);
      if After(SetLatch(q), steps).reports < goal {
        DebtorCanMove(After(SetLatch(q), steps), goal);
      }
    }
  }

  lemma {:induction false} DebtStays<E>(q: Queue<E>, steps: seq<Step<E>>, goal: nat)
    requires Runs(q, steps) && Owed(q, goal)
    ensures Owed(After(q, steps), goal)
    decreases |steps|
  {
    if steps != [] {
      StepApproaches(q, steps[0], goal);
      DebtStays(Next(q, steps[0]), steps[1..], goal);
    }
  }

  /** An exposed drop is reported within as many dispatcher steps of the next event, which is never dropped itself. */
  lemma NextEventUncovers<E>(q: Queue<E>, e: E, steps: seq<Step<E>>)
    requires Exposed(q) && 0 < q.capacity && Runs(TryPut(q, e), steps)
    requires DispatcherSteps(steps) >= Distance(TryPut(q, e), Goal(q))
    ensures Fits(q) && Distance(TryPut(q, e), Goal(q)) <= 5 && After(TryPut(q, e), steps).reports >= Goal(q)
  {
    OwedIsPaid(TryPut(q, e), steps, Goal(q));
  }

  // ----- The silent case is reachable -----

  lemma {:induction false} Fill<E>(q: Queue<E>, e: E, n: nat) returns (steps: seq<Step<E>>)
    requires |q.queue| + n <= q.capacity
    ensures Runs(q, steps)
    ensures var t := After(q, steps);
            && |t.queue| == |q.queue| + n && t.capacity == q.capacity && t.phase == q.phase
            && t.overflow == q.overflow && t.owed == q.owed
    decreases n
  {
    steps := [];
    if n > 0 {
      var rest := Fill(TryPut(q, e), e, n - 1);
      steps := [Put(e)] + rest;
      assert steps[1..] == rest;
    }
  }

  lemma OneTurn<E>(q: Queue<E>)
    requires q.phase.Waiting? && q.queue != [] && !q.overflow
    ensures var turn: seq<Step<E>> := [Get, Dispatch, Test];
            Runs(q, turn) && After(q, turn).phase.Waiting? && After(q, turn).queue == q.queue[1..]
            && !After(q, turn).overflow && After(q, turn).owed == q.owed
  {
    var a := Next(q, Get);
    var b := Next(a, Dispatch);
    OneStep(b, Test);
    OneStep(a, Dispatch);
    OneStep(q, Get);
    RunsAppend(a, [Dispatch], [Test]);
    RunsAppend(q, [Get], [Dispatch] + [Test]);
    var turn: seq<Step<E>> := [Get, Dispatch, Test];
    assert [Get] + ([Dispatch] + [Test]) == turn;
  }

  lemma {:induction false} Drain<E>(q: Queue<E>) returns (steps: seq<Step<E>>)
    requires q.phase.Waiting? && !q.overflow
    ensures Runs(q, steps)
    ensures var t := After(q, steps); t.queue == [] && t.phase.Waiting? && !t.overflow && t.owed == q.owed
    decreases |q.queue|
  {
    steps := [];
    if q.queue != [] {
      OneTurn(q);
      var turn: seq<Step<E>> := [Get, Dispatch, Test];
      var rest := Drain(After(q, turn));
      RunsAppend(q, turn, rest);
      steps := turn + rest;
    }
  }

  /**
   * For every queue size: the queue fills, a put fails, the dispatcher drains everything and finds no overflow, and
   * only then the publisher sets the latch. The loss stays silent with the dispatcher blocked.
   */
  lemma LatchCanComeTooLate<E>(capacity: nat, e: E) returns (steps: seq<Step<E>>)
    requires 0 < capacity
    ensures Runs(Empty(capacity), steps)
    ensures var q := After(Empty(capacity), steps);
            Exposed(q) && q.phase.Waiting? && forall s: Step<E> | ByDispatcher(s) :: !Enabled(q, s)
  {
    var start: Queue<E> := Empty(capacity);
    var fill := Fill(start, e, capacity);
    var full := After(start, fill);
    OneStep(full, Put(e));
    RunsAppend(start, fill, [Put(e)]);
    var owing := TryPut(full, e);
    var drain := Drain(owing);
    RunsAppend(start, fill + [Put(e)], drain);
    var drained := After(owing, drain);
    OneStep(drained, Latch);
    steps := fill + [Put(e)] + drain + [Latch];
    RunsAppend(start, fill + [Put(e)] + drain, [Latch]);
  }
}
