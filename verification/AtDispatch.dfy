/** From keystrokes to handlers: what a caller of the AT service and the author of a command can rely on. */
module AtDispatch {
  import opened Options
  import opened Errors
  import opened AtLine
  import opened AtGrammar
  import opened AtService
  import AtRegistry

  // ----- Serving -----

  /** In a well-formed table: who is called, and with what; who is described; and every refusal. */
  lemma HandlerIsCalledIff(table: seq<AtRegistry.Command>, c: AtRegistry.Command, op: Operation,
                           argument: Option<string>)
    requires AtRegistry.Unique(table) && c in table
    ensures var r := AtRegistry.Dispatch(table, c.name, op, argument);
            && (r == AtRegistry.Call(c.handler, op, argument) <==> op != Help && op in c.allowed)
            && (r.Call? <==> op != Help && op in c.allowed)
            && (forall text :: r == AtRegistry.Describe(c.name, text) <==> op == Help && c.help == Some(text))
            && (r.Describe? <==> op == Help && c.help.Some?)
            && (r == AtRegistry.Refused(ERR_NOT_SUPPORTED) <==> (if op == Help then c.help.None? else op !in c.allowed))
  {
    AtRegistry.DispatchFinds(table, c, op, argument);
  }

  /** A name nobody registered is not found, and no other name is. */
  lemma NotFoundIff(table: seq<AtRegistry.Command>, name: string, op: Operation, argument: Option<string>)
    requires AtRegistry.Unique(table)
    ensures AtRegistry.Dispatch(table, name, op, argument) == AtRegistry.Refused(ERR_NOT_FOUND)
       <==> forall c | c in table :: c.name != name
  {
    AtRegistry.DispatchIsLookup(table, name, op, argument);
    forall c | c in table && c.name == name
      ensures AtRegistry.Dispatch(table, name, op, argument) != AtRegistry.Refused(ERR_NOT_FOUND)
    {
      AtRegistry.DispatchFinds(table, c, op, argument);
    }
  }

  /**
   * Typed at an unlocked service, in any letter case of prefix and name and with any line end, a command makes one
   * execution, and that one calls the handler of its name with its operation and its argument.
   */
  lemma TypedCommandCalls(max: nat, table: seq<AtRegistry.Command>, c: AtRegistry.Command, r: Request,
                          text: string, end: string)
    requires WellFormed(r) && Spells(text, r) && AtLine.Printable(text) && |text| < max && end in ENDS
    requires AtRegistry.Unique(table) && c in table && c.name == r.name && r.op in c.allowed && r.op != Help
    ensures FeedAll(max, RESET, text + end).outs == [AtLine.Execute(text)]
    ensures ReactionOf(table, false, text) == Reaction(r, Some(AtRegistry.Call(c.handler, r.op, r.argument)))
    ensures ReactionOf(table, true, text)
         == if r.name == "PWORD" || r.name == "LOCK" then ReactionOf(table, false, text) else Reaction(Malformed, None)
  {
    TypedCommandDispatches(max, r, text, end);
    HandlerIsCalledIff(table, c, r.op, r.argument);
  }

  /** So an unlocked service whose input is that command makes exactly that one call. */
  lemma TypedCommandReacts(table: seq<AtRegistry.Command>, c: AtRegistry.Command, r: Request, text: string,
                           outs: seq<Output>, reactions: seq<Reaction>, reactions': seq<Reaction>, locked: bool)
    requires WellFormed(r) && Spells(text, r)
    requires AtRegistry.Unique(table) && c in table && c.name == r.name && r.op in c.allowed && r.op != Help
    requires Extends(table, outs, reactions, outs + [AtLine.Execute(text)], reactions')
    requires UnderLock(table, false, outs, reactions, outs + [AtLine.Execute(text)], reactions', locked)
    ensures reactions' == reactions + [Reaction(r, Some(AtRegistry.Call(c.handler, r.op, r.argument)))]
  {
    var more: seq<Output> := [AtLine.Execute(text)];
    assert (outs + more)[|outs|..] == more && more[..0] == [] && Lines(more) == [text];
    SpelledParses(text, r);
    HandlerIsCalledIff(table, c, r.op, r.argument);
    assert reactions' == reactions + reactions'[|reactions|..];
  }

  /** Every registered command can be typed: its name is in the form the parser gives to names. */
  lemma RegisteredIsTypable(c: AtRegistry.Command, op: Operation, argument: Option<string>)
    requires AtRegistry.Acceptable(c) && argument.Some? == op.Write?
    requires op.Write? ==> argument.value != "" && '?' !in argument.value
    ensures WellFormed(Invoke(c.name, op, argument)) && AtLine.Printable(c.name) && c.handler.Some?
    ensures forall i | 0 <= i < |c.name| :: 'A' <= c.name[i] <= 'Z' || '0' <= c.name[i] <= '9' || c.name[i] == '_'
  {
    forall i | 0 <= i < |c.name|
      ensures UpperAll(c.name)[i] == c.name[i] && !IsMark(c.name[i]) && IsPrintable(c.name[i])
    {
      assert AtRegistry.IsNameChar(c.name[i]);
    }
  }

  // ----- The lines without a name, and malformed ones -----

  const SPECIALS: set<string> := {"AT", "AT?", "ATE", "ATE?", "ATZ", "ATZ?", "ATR", "ATR?"}

  /** Each of the eight short lines asks for one thing, in any letter case, and nothing else asks for it. */
  lemma ShortLinesIff(line: string)
    ensures Parse(line) == Attention <==> UpperAll(line) == "AT"
    ensures Parse(line) == ListHelp <==> UpperAll(line) == "AT?"
    ensures Parse(line) == ToggleEcho <==> UpperAll(line) == "ATE"
    ensures Parse(line) == EchoHelp <==> UpperAll(line) == "ATE?"
    ensures Parse(line) == Reboot <==> UpperAll(line) == "ATZ"
    ensures Parse(line) == RebootHelp <==> UpperAll(line) == "ATZ?"
    ensures Parse(line) == Restore <==> UpperAll(line) == "ATR"
    ensures Parse(line) == RestoreHelp <==> UpperAll(line) == "ATR?"
  {
    if Special(UpperAll(line)).None? && |line| >= 3 {
      TailIsNamed(UpperAll(line[3..][..FirstMark(line[3..])]), line[3..][FirstMark(line[3..])..]);
    }
  }

  lemma TailIsNamed(name: string, tail: string)
    ensures Tail(name, tail).Invoke? || Tail(name, tail).Malformed?
  {
  }

  /** A line is malformed exactly when it is none of the short lines and spells no command. */
  lemma MalformedIff(line: string)
    ensures Parse(line) == Malformed
       <==> UpperAll(line) !in SPECIALS && forall r | WellFormed(r) :: !Spells(line, r)
  {
    ShortLinesIff(line);
    forall r | WellFormed(r)
      ensures Parse(line) == r <==> Spells(line, r)
    {
      ParsesIffSpells(line, r);
    }
    if Parse(line).Invoke? {
      ParsedSpells(line);
    }
  }

  /** A locked service lets through the two names that can unlock it and the lines without a name. */
  lemma LockedIff(line: string)
    ensures React(true, line) == Malformed
       <==> Parse(line) == Malformed
            || (Parse(line).Invoke? && Parse(line).name != "PWORD" && Parse(line).name != "LOCK")
    ensures React(true, line) != Malformed ==> React(true, line) == Parse(line)
    ensures React(false, line) == Parse(line)
  {
  }

  // ----- Registering -----

  /** A refused batch: why, and the table it leaves. The first command that cannot follow decides. */
  lemma RefusalIff(max: nat, isSealed: bool, table: seq<AtRegistry.Command>, batch: seq<AtRegistry.Command>)
    requires AtRegistry.Unique(table)
    ensures var rc := AtRegistry.RegisterRc(max, isSealed, table, batch);
            && (rc == ERR_INVALID_STATE <==> isSealed)
            && (rc == ERR_ALREADY <==> !isSealed && |table| + |batch| <= max && exists i: nat ::
                  i < |batch| && AtRegistry.Unique(table + batch[..i]) && !AtRegistry.Unique(table + batch[..i + 1])
                  && AtRegistry.Acceptable(batch[i]))
            && (rc == ERR_INVALID <==> !isSealed && (|table| + |batch| > max || exists i: nat ::
                  i < |batch| && AtRegistry.Unique(table + batch[..i]) && !AtRegistry.Acceptable(batch[i])))
            && (rc != OK ==> AtRegistry.AfterRegister(max, isSealed, table, batch) == table)
  {
    assert table + batch[..0] == table;
    if !isSealed && |table| + |batch| <= max {
      VerdictFinds(table, batch, 0);
    }
  }

  lemma PrefixStaysUnique(table: seq<AtRegistry.Command>, batch: seq<AtRegistry.Command>, i: nat, j: nat)
    requires i <= j <= |batch| && AtRegistry.Unique(table + batch[..j])
    ensures AtRegistry.Unique(table + batch[..i])
  {
    var longer, shorter := table + batch[..j], table + batch[..i];
    assert forall n | 0 <= n < |shorter| :: shorter[n] == longer[n];
  }

  /** Where the verdict on the rest of a batch is not OK, a first offender is behind it. */
  lemma {:induction false} VerdictFinds(table: seq<AtRegistry.Command>, batch: seq<AtRegistry.Command>, i: nat)
    requires i <= |batch| && AtRegistry.Unique(table + batch[..i])
    ensures var rc := AtRegistry.Verdict(table, batch, i);
            && (rc == ERR_ALREADY <==> exists n: nat ::
                  n < |batch| && AtRegistry.Unique(table + batch[..n]) && !AtRegistry.Unique(table + batch[..n + 1])
                  && AtRegistry.Acceptable(batch[n]))
            && (rc == ERR_INVALID <==> exists n: nat ::
                  n < |batch| && AtRegistry.Unique(table + batch[..n]) && !AtRegistry.Acceptable(batch[n]))
            && (rc == OK || rc == ERR_ALREADY || rc == ERR_INVALID)
    decreases |batch| - i
  {
    forall n: nat | n < i
      ensures AtRegistry.Unique(table + batch[..n + 1]) && AtRegistry.Acceptable(batch[n])
    {
      PrefixStaysUnique(table, batch, n + 1, i);
      assert (table + batch[..i])[|table| + n] == batch[n];
    }
    if i < |batch| {
      Offends(table, batch, i);
      if AtRegistry.Unique(table + batch[..i + 1]) {
        VerdictFinds(table, batch, i + 1);
      } else {
        forall n: nat | i < n <= |batch|
          ensures !AtRegistry.Unique(table + batch[..n])
        {
          if AtRegistry.Unique(table + batch[..n]) {
            PrefixStaysUnique(table, batch, i + 1, n);
          }
        }
      }
    }
  }

  /** One command can follow exactly when it is acceptable and its name is new. */
  lemma Offends(table: seq<AtRegistry.Command>, batch: seq<AtRegistry.Command>, i: nat)
    requires i < |batch| && AtRegistry.Unique(table + batch[..i])
    ensures AtRegistry.Unique(table + batch[..i + 1])
       <==> AtRegistry.Acceptable(batch[i]) && !AtRegistry.HasName(table, batch[i].name)
            && !AtRegistry.HasName(batch[..i], batch[i].name)
  {
    var upTo := batch[..i + 1];
    assert upTo[..i] == batch[..i] && upTo[i] == batch[i] && upTo[..i + 1] == upTo;
    if AtRegistry.Acceptable(batch[i]) && !AtRegistry.HasName(table, batch[i].name)
       && !AtRegistry.HasName(batch[..i], batch[i].name) {
      AtRegistry.ExtendUnique(table, batch, i);
    } else {
      AtRegistry.SpoiltByOne(table, upTo, i);
    }
  }

  lemma PrefixHolds(shorter: seq<AtRegistry.Command>, longer: seq<AtRegistry.Command>, c: AtRegistry.Command)
    requires shorter <= longer && c in shorter
    ensures c in longer
  {
    var i :| 0 <= i < |shorter| && shorter[i] == c;
    assert longer[i] == c;
  }

  /** Once its batch is accepted, a command is called for what it allows, whatever is registered or sealed later. */
  lemma RegisteredIsCalled(max: nat, s: AtRegistry.State, batch: seq<AtRegistry.Command>, later: seq<AtRegistry.Step>,
                           c: AtRegistry.Command, op: Operation, argument: Option<string>)
    requires AtRegistry.Unique(s.table) && |s.table| <= max
    requires AtRegistry.RegisterRc(max, s.isSealed, s.table, batch) == OK && c in batch && op in c.allowed && op != Help
    ensures var e := AtRegistry.After(max, AtRegistry.Next(max, s, AtRegistry.Register(batch)), later);
            AtRegistry.Dispatch(e.table, c.name, op, argument) == AtRegistry.Call(c.handler, op, argument)
  {
    AtRegistry.RegisteredIffUnique(max, s.isSealed, s.table, batch);
    var t := AtRegistry.Next(max, s, AtRegistry.Register(batch));
    var e := AtRegistry.After(max, t, later);
    AtRegistry.RunKeepsUnique(max, t, later);
    PrefixHolds(t.table, e.table, c);
    HandlerIsCalledIff(e.table, c, op, argument);
  }

  /** After the seal nothing can be registered any more. */
  lemma SealFreezes(max: nat, s: AtRegistry.State, later: seq<AtRegistry.Step>, batch: seq<AtRegistry.Command>)
    requires AtRegistry.Unique(s.table) && |s.table| <= max
    ensures var e := AtRegistry.After(max, AtRegistry.Next(max, s, AtRegistry.Seal), later);
            e.table == s.table && AtRegistry.RegisterRc(max, e.isSealed, e.table, batch) == ERR_INVALID_STATE
  {
    AtRegistry.RunKeepsUnique(max, AtRegistry.Next(max, s, AtRegistry.Seal), later);
  }

  // ----- Editing -----

  /** Backspace and delete take back one typed character, and only that. */
  lemma EraseTakesBack(max: nat, d: Draft, c: char, erase: char)
    requires IsPrintable(c) && |d.line| + 1 < max && (erase == 8 as char || erase == 127 as char)
    ensures Key(max, Key(max, d, c), erase) == d
  {
    assert !IsErase(c);
    assert (d.line + [c])[..|d.line|] == d.line;
  }

  /** Other control characters change nothing, and only a line end clears an overflow. */
  lemma ControlIsIgnored(max: nat, d: Draft, c: char)
    ensures !IsPrintable(c) && c != 8 as char && c != 127 as char ==> Key(max, d, c) == d
    ensures d.overflow ==> Key(max, d, c).overflow
    ensures d.line == "" && (c == 8 as char || c == 127 as char) ==> Key(max, d, c) == d
  {
  }
}
