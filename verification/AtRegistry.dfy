/** The command registry of the AT service: all-or-nothing batches before the seal, lookup by name after it. */
module AtRegistry {
  import opened Options
  import opened Errors
  import opened AtGrammar

  /** A registered command; `handler` identifies a foreign function, `help` is its optional text. */
  datatype Command = Command(name: string, help: Option<string>, allowed: set<Operation>, handler: Option<nat>)

  const BLANK := Command("", None, {}, None)

  /** What a dispatch does. */
  datatype Outcome = Refused(rc: int) | Describe(name: string, text: string)
                   | Call(handler: Option<nat>, op: Operation, argument: Option<string>)

  predicate IsNameChar(c: char) {
    'A' <= c <= 'Z' || '0' <= c <= '9' || c == '_'
  }

  predicate ValidName(name: string) {
    name != "" && forall i | 0 <= i < |name| :: IsNameChar(name[i])
  }

  predicate Acceptable(c: Command) {
    ValidName(c.name) && c.handler.Some?
  }

  predicate HasName(commands: seq<Command>, name: string) {
    exists i | 0 <= i < |commands| :: commands[i].name == name
  }

  // ----- Registration -----

  /** The verdict on the batch from index `i` on: the first offending command decides. */
  function Verdict(table: seq<Command>, batch: seq<Command>, i: nat): int
    requires i <= |batch|
    decreases |batch| - i
  {
    if i == |batch| then OK
    else if !Acceptable(batch[i]) then ERR_INVALID
    else if HasName(table, batch[i].name) || HasName(batch[..i], batch[i].name) then ERR_ALREADY
    else Verdict(table, batch, i + 1)
  }

  function RegisterRc(max: nat, isSealed: bool, table: seq<Command>, batch: seq<Command>): int {
    if isSealed then ERR_INVALID_STATE
    else if |table| + |batch| > max then ERR_INVALID
    else Verdict(table, batch, 0)
  }

  function AfterRegister(max: nat, isSealed: bool, table: seq<Command>, batch: seq<Command>): seq<Command> {
    if RegisterRc(max, isSealed, table, batch) == OK then table + batch else table
  }

  /** Names are pairwise different and every command can be called. */
  predicate Unique(table: seq<Command>) {
    && (forall i | 0 <= i < |table| :: Acceptable(table[i]))
    && (forall i, j | 0 <= i < j < |table| :: table[i].name != table[j].name)
  }

  /** One acceptable command with a new name keeps the table so far well-formed. */
  lemma ExtendUnique(table: seq<Command>, batch: seq<Command>, i: nat)
    requires i < |batch| && Unique(table + batch[..i]) && Acceptable(batch[i])
    requires !HasName(table, batch[i].name) && !HasName(batch[..i], batch[i].name)
    ensures Unique(table + batch[..i + 1])
  {
    var so, longer := table + batch[..i], table + batch[..i + 1];
    assert longer == so + [batch[i]];
    forall a | 0 <= a < |so|
      ensures so[a].name != batch[i].name
    {
      if a < |table| {
        assert so[a] == table[a];
      } else {
        assert so[a] == batch[..i][a - |table|];
      }
    }
  }

  /** Any other command spoils it. */
  lemma SpoiltByOne(table: seq<Command>, batch: seq<Command>, i: nat)
    requires i < |batch|
    requires !Acceptable(batch[i]) || HasName(table, batch[i].name) || HasName(batch[..i], batch[i].name)
    ensures !Unique(table + batch)
  {
    var t, n := table + batch, |table| + i;
    assert t[n] == batch[i];
    if HasName(table, batch[i].name) {
      var a :| 0 <= a < |table| && table[a].name == batch[i].name;
      assert t[a] == table[a] && t[a].name == t[n].name;
    } else if HasName(batch[..i], batch[i].name) {
      var a :| 0 <= a < |batch[..i]| && batch[..i][a].name == batch[i].name;
      assert t[|table| + a] == batch[..i][a] && t[|table| + a].name == t[n].name;
    }
  }

  lemma {:induction false} VerdictMeansUnique(table: seq<Command>, batch: seq<Command>, i: nat)
    requires i <= |batch| && Unique(table + batch[..i])
    ensures Verdict(table, batch, i) == OK <==> Unique(table + batch)
    decreases |batch| - i
  {
    if i == |batch| {
      assert batch[..i] == batch;
    } else if Acceptable(batch[i]) && !HasName(table, batch[i].name) && !HasName(batch[..i], batch[i].name) {
      ExtendUnique(table, batch, i);
      VerdictMeansUnique(table, batch, i + 1);
    } else {
      SpoiltByOne(table, batch, i);
    }
  }

  /** A batch is taken whole or not at all, and exactly when the table it makes is well-formed. */
  lemma RegisteredIffUnique(max: nat, isSealed: bool, table: seq<Command>, batch: seq<Command>)
    requires Unique(table)
    ensures RegisterRc(max, isSealed, table, batch) == OK
       <==> !isSealed && |table| + |batch| <= max && Unique(table + batch)
    ensures Unique(AfterRegister(max, isSealed, table, batch))
  {
    assert table + batch[..0] == table;
    VerdictMeansUnique(table, batch, 0);
  }

  // ----- Runs -----

  datatype Step = Register(batch: seq<Command>) | Seal

  datatype State = State(table: seq<Command>, isSealed: bool)

  const EMPTY := State([], false)

  function Next(max: nat, s: State, step: Step): State {
    match step
    case Register(batch) => s.(table := AfterRegister(max, s.isSealed, s.table, batch))
    case Seal => s.(isSealed := true)
  }

  function After(max: nat, s: State, steps: seq<Step>): State
    decreases |steps|
  {
    if steps == [] then s else After(max, Next(max, s, steps[0]), steps[1..])
  }

  /** Names stay unique, the table only grows, it stays within its array, and the seal freezes it. */
  lemma {:induction false} RunKeepsUnique(max: nat, s: State, steps: seq<Step>)
    requires Unique(s.table) && |s.table| <= max
    ensures var e := After(max, s, steps);
            && Unique(e.table) && |e.table| <= max && s.table <= e.table
            && (s.isSealed ==> e == s)
    decreases |steps|
  {
    if steps != [] {
      if steps[0].Register? {
        RegisteredIffUnique(max, s.isSealed, s.table, steps[0].batch);
      }
      RunKeepsUnique(max, Next(max, s, steps[0]), steps[1..]);
    }
  }

  // ----- Dispatch -----

  function Serve(c: Command, op: Operation, argument: Option<string>): Outcome {
    if op == Help then (if c.help.None? then Refused(ERR_NOT_SUPPORTED) else Describe(c.name, c.help.value))
    else if op !in c.allowed then Refused(ERR_NOT_SUPPORTED)
    else Call(c.handler, op, argument)
  }

  /** The first command of that name serves. */
  function Dispatch(table: seq<Command>, name: string, op: Operation, argument: Option<string>): Outcome {
    if table == [] then Refused(ERR_NOT_FOUND)
    else if table[0].name == name then Serve(table[0], op, argument)
    else Dispatch(table[1..], name, op, argument)
  }

  /** The commands of a table, forgetting their order. */
  ghost function Members(table: seq<Command>): set<Command> {
    set c | c in table
  }

  lemma NamesDetermine(table: seq<Command>, a: Command, b: Command)
    requires Unique(table) && a in table && b in table && a.name == b.name
    ensures a == b
  {
    var i :| 0 <= i < |table| && table[i] == a;
    var j :| 0 <= j < |table| && table[j] == b;
  }

  lemma {:induction false} DispatchFinds(table: seq<Command>, c: Command, op: Operation, argument: Option<string>)
    requires Unique(table) && c in table
    ensures Dispatch(table, c.name, op, argument) == Serve(c, op, argument)
  {
    if table[0].name == c.name {
      NamesDetermine(table, table[0], c);
    } else {
      assert c in table[1..];
      DispatchFinds(table[1..], c, op, argument);
    }
  }

  lemma {:induction false} DispatchMisses(table: seq<Command>, name: string, op: Operation, argument: Option<string>)
    requires !HasName(table, name)
    ensures Dispatch(table, name, op, argument) == Refused(ERR_NOT_FOUND)
  {
    if table != [] {
      assert table[0].name != name;
      forall i | 0 <= i < |table| - 1
        ensures table[1..][i].name != name
      {
        assert table[1..][i] == table[i + 1];
      }
      DispatchMisses(table[1..], name, op, argument);
    }
  }

  /** In a well-formed table the search is a lookup in the set of commands by name; the order does not matter. */
  lemma DispatchIsLookup(table: seq<Command>, name: string, op: Operation, argument: Option<string>)
    requires Unique(table)
    ensures forall c | c in Members(table) && c.name == name ::
              Dispatch(table, name, op, argument) == Serve(c, op, argument)
    ensures (forall c | c in Members(table) :: c.name != name)
        ==> Dispatch(table, name, op, argument) == Refused(ERR_NOT_FOUND)
  {
    forall c | c in Members(table) && c.name == name
      ensures Dispatch(table, name, op, argument) == Serve(c, op, argument)
    {
      DispatchFinds(table, c, op, argument);
    }
    if forall c | c in Members(table) :: c.name != name {
      assert forall i | 0 <= i < |table| :: table[i] in Members(table);
      DispatchMisses(table, name, op, argument);
    }
  }

  /** After any run of registrations the outcome depends on the set of accepted commands alone. */
  lemma RegistrationOrderIsIrrelevant(max: nat, one: seq<Step>, other: seq<Step>, name: string,
                                      op: Operation, argument: Option<string>)
    requires Members(After(max, EMPTY, one).table) == Members(After(max, EMPTY, other).table)
    ensures Dispatch(After(max, EMPTY, one).table, name, op, argument)
         == Dispatch(After(max, EMPTY, other).table, name, op, argument)
  {
    var a, b := After(max, EMPTY, one).table, After(max, EMPTY, other).table;
    RunKeepsUnique(max, EMPTY, one);
    RunKeepsUnique(max, EMPTY, other);
    DispatchIsLookup(a, name, op, argument);
    DispatchIsLookup(b, name, op, argument);
    if c :| c in Members(a) && c.name == name {
      assert c in Members(b);
    }
  }

  // ----- The registry as written -----

  class Registry {
    const registered: array<Command>
    var commandCount: nat
    var isSealed: bool

    ghost predicate Valid()
      reads this, registered
    {
      commandCount <= registered.Length && Unique(Table())
    }

    ghost function Table(): seq<Command>
      requires commandCount <= registered.Length
      reads this, registered
    {
      registered[..commandCount]
    }

    constructor (max: nat)
      ensures Valid() && fresh(registered) && registered.Length == max && Table() == [] && !isSealed
    {
      registered := new Command[max](_ => BLANK);
      commandCount, isSealed := 0, false;
    }

    static method CheckName(name: string) returns (ok: bool)
      ensures ok == ValidName(name)
    {
      if name == "" {
        return false;
      }
      for p := 0 to |name|
        invariant forall i | 0 <= i < p :: IsNameChar(name[i])
      {
        if !IsNameChar(name[p]) {
          return false;
        }
      }
      return true;
    }

    /** The validation loops of a registration. */
    method CheckBatch(commands: seq<Command>) returns (rc: int)
      requires commandCount <= registered.Length
      ensures rc == Verdict(Table(), commands, 0)
    {
      for i := 0 to |commands|
        invariant Verdict(Table(), commands, i) == Verdict(Table(), commands, 0)
      {
        var named := CheckName(commands[i].name);
        if !named || commands[i].handler.None? {
          return ERR_INVALID;
        }
        for j := 0 to commandCount
          invariant forall k | 0 <= k < j :: registered[k].name != commands[i].name
        {
          if commands[i].name == registered[j].name {
            assert Table()[j].name == commands[i].name;
            return ERR_ALREADY;
          }
        }
        for j := 0 to i
          invariant forall k | 0 <= k < j :: commands[k].name != commands[i].name
        {
          if commands[i].name == commands[j].name {
            assert commands[..i][j].name == commands[i].name;
            return ERR_ALREADY;
          }
        }
      }
      rc := OK;
    }

    method Append(commands: seq<Command>)
      requires commandCount + |commands| <= registered.Length
      modifies this`commandCount, registered
      ensures commandCount <= registered.Length && Table() == old(Table()) + commands
    {
      ghost var before := Table();
      for i := 0 to |commands|
        invariant commandCount == |before| + i && registered[..commandCount] == before + commands[..i]
      {
        registered[commandCount] := commands[i];
        commandCount := commandCount + 1;
      }
    }

    method Register(commands: seq<Command>) returns (rc: int)
      requires Valid()
      modifies this`commandCount, registered
      ensures Valid()
      ensures rc == RegisterRc(registered.Length, isSealed, old(Table()), commands)
      ensures Table() == AfterRegister(registered.Length, isSealed, old(Table()), commands)
    {
      RegisteredIffUnique(registered.Length, isSealed, Table(), commands);
      if isSealed {
        return ERR_INVALID_STATE;
      }
      if commandCount + |commands| > registered.Length {
        return ERR_INVALID;
      }
      rc := CheckBatch(commands);
      if rc != OK {
        return;
      }
      Append(commands);
    }

    method SealUp()
      requires Valid()
      modifies this`isSealed
      ensures Valid() && isSealed
    {
      isSealed := true;
    }

    method Find(name: string, op: Operation, argument: Option<string>) returns (r: Outcome)
      requires Valid()
      ensures r == Dispatch(Table(), name, op, argument)
    {
      for i := 0 to commandCount
        invariant Dispatch(Table()[i..], name, op, argument) == Dispatch(Table(), name, op, argument)
      {
        var command := registered[i];
        assert Table()[i..][1..] == Table()[i + 1..];
        if name != command.name {
          continue;
        }
        if op == Help {
          return if command.help.None? then Refused(ERR_NOT_SUPPORTED) else Describe(command.name, command.help.value);
        }
        if op !in command.allowed {
          return Refused(ERR_NOT_SUPPORTED);
        }
        return Call(command.handler, op, argument);
      }
      r := Refused(ERR_NOT_FOUND);
    }
  }
}
