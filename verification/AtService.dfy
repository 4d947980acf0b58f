/** The AT parser and its input path as written: a line buffer edited in place, a ring, and one draining thread. */
module AtService {
  import opened Options
  import opened Errors
  import opened Bytes
  import opened AtLine
  import opened AtGrammar
  import AtRegistry
  import opened AtInput

  const NUL: char := 0 as char

  /** What an executed line asked for, and what the registry made of it. */
  datatype Reaction = Reaction(request: Request, outcome: Option<AtRegistry.Outcome>)

  function ReactionOf(table: seq<AtRegistry.Command>, locked: bool, text: string): Reaction {
    var r := React(locked, text);
    Reaction(r, if r.Invoke? then Some(AtRegistry.Dispatch(table, r.name, r.op, r.argument)) else None)
  }

  predicate CallsHandler(r: Reaction) {
    r.outcome.Some? && r.outcome.value.Call?
  }

  /** Until a line has been reacted to the lock is as it was, and the first reaction is under that lock. */
  ghost predicate UnderLock(table: seq<AtRegistry.Command>, first: bool, outs: seq<Output>, reactions: seq<Reaction>,
                            outs': seq<Output>, reactions': seq<Reaction>, locked: bool) {
    && outs <= outs' && reactions <= reactions'
    && var lines := Lines(outs'[|outs|..]);
       if lines == [] then reactions' == reactions && locked == first
       else reactions < reactions' && reactions'[|reactions|] == ReactionOf(table, first, lines[0])
  }

  lemma NothingYet(table: seq<AtRegistry.Command>, locked: bool, outs: seq<Output>, reactions: seq<Reaction>)
    ensures Extends(table, outs, reactions, outs, reactions)
    ensures UnderLock(table, locked, outs, reactions, outs, reactions, locked)
  {
    assert outs[|outs|..] == [] && reactions[|reactions|..] == [];
  }

  lemma UnderLockAgain(table: seq<AtRegistry.Command>, first: bool, o0: seq<Output>, r0: seq<Reaction>,
                       o1: seq<Output>, r1: seq<Reaction>, l1: bool, more: seq<Output>, r2: seq<Reaction>, l2: bool)
    requires UnderLock(table, first, o0, r0, o1, r1, l1) && |more| <= 1
    requires r2 == r1 + if more != [] && more[0].Execute? then [ReactionOf(table, l1, more[0].line)] else []
    requires r2 == r1 ==> l2 == l1
    ensures UnderLock(table, first, o0, r0, o1 + more, r2, l2)
  {
    assert (o1 + more)[|o0|..] == o1[|o0|..] + more;
    LinesCompose(o1[|o0|..], more);
    if more != [] {
      assert more[..0] == [] && Lines(more) == if more[0].Execute? then [more[0].line] else [];
    } else {
      assert Lines(o1[|o0|..]) + [] == Lines(o1[|o0|..]);
    }
  }

  /** The executed lines among some outputs, in order. */
  function Lines(outs: seq<Output>): seq<string> {
    if outs == [] then []
    else
      var last := outs[|outs| - 1];
      Lines(outs[..|outs| - 1]) + if last.Execute? then [last.line] else []
  }

  lemma {:induction false} LinesCompose(a: seq<Output>, b: seq<Output>)
    ensures Lines(a + b) == Lines(a) + Lines(b)
  {
    if b == [] {
      assert a + b == a;
    } else {
      assert (a + b)[..|a + b| - 1] == a + b[..|b| - 1];
      LinesCompose(a, b[..|b| - 1]);
    }
  }

  /** One reaction for each line, in order, under the lock as it was then. */
  ghost predicate Served(table: seq<AtRegistry.Command>, lines: seq<string>, reactions: seq<Reaction>) {
    && |reactions| == |lines|
    && forall i | 0 <= i < |lines| ::
         reactions[i] == ReactionOf(table, false, lines[i]) || reactions[i] == ReactionOf(table, true, lines[i])
  }

  /** Outputs and reactions only grow, and the new lines are served. */
  ghost predicate Extends(table: seq<AtRegistry.Command>, outs: seq<Output>, reactions: seq<Reaction>,
                          outs': seq<Output>, reactions': seq<Reaction>) {
    outs <= outs' && reactions <= reactions' && Served(table, Lines(outs'[|outs|..]), reactions'[|reactions|..])
  }

  lemma ExtendsTransitively(table: seq<AtRegistry.Command>, o0: seq<Output>, r0: seq<Reaction>,
                            o1: seq<Output>, r1: seq<Reaction>, o2: seq<Output>, r2: seq<Reaction>)
    requires Extends(table, o0, r0, o1, r1) && Extends(table, o1, r1, o2, r2)
    ensures Extends(table, o0, r0, o2, r2)
  {
    assert o2[|o0|..] == o1[|o0|..] + o2[|o1|..] && r2[|r0|..] == r1[|r0|..] + r2[|r1|..];
    LinesCompose(o1[|o0|..], o2[|o1|..]);
  }

  lemma ExtendsByOne(table: seq<AtRegistry.Command>, outs: seq<Output>, reactions: seq<Reaction>, more: seq<Output>,
                     locked: bool)
    requires |more| <= 1
    ensures Extends(table, outs, reactions, outs + more,
                    reactions
                    + if more != [] && more[0].Execute? then [ReactionOf(table, locked, more[0].line)] else [])
  {
    assert (outs + more)[|outs|..] == more;
    if more != [] {
      assert more[..0] == [] && Lines(more) == if more[0].Execute? then [more[0].line] else [];
    }
  }

  class Service {
    const line: array<char>
    var lineLength: nat
    var lineOverflow: bool
    var ignoreLf: bool
    var locked: bool
    var started: bool
    const ringSize: nat
    var ring: string
    var rxOverflow: bool
    const registry: AtRegistry.Registry
    // What the service has done: outputs, what came of each executed line, and bytes lost unreported.
    ghost var outs: seq<Output>
    ghost var reactions: seq<Reaction>
    ghost var dropped: nat

    ghost predicate Valid()
      reads this, registry, registry.registered
    {
      0 < line.Length && lineLength < line.Length && |ring| <= ringSize && registry.Valid()
    }

    ghost function Edited(): Editor
      requires lineLength <= line.Length
      reads this, line
    {
      Editor(line[..lineLength], lineOverflow, ignoreLf)
    }

    ghost function Limits(): Sizes {
      Sizes(ringSize, line.Length)
    }

    ghost function ReactionTo(text: string): Reaction
      requires Valid()
      reads this, registry, registry.registered
    {
      ReactionOf(registry.Table(), locked, text)
    }

    ghost function Now(): Port
      requires lineLength <= line.Length
      reads this, line
    {
      Port(ring, rxOverflow, Edited(), outs, dropped)
    }

    constructor (max: nat, size: nat, commands: AtRegistry.Registry)
      requires 0 < max && commands.Valid()
      ensures Valid() && fresh(line) && Now() == EMPTY && Limits() == Sizes(size, max) && registry == commands
      ensures !started && !locked
    {
      line := new char[max](_ => NUL);
      lineLength, lineOverflow, ignoreLf, locked, started := 0, false, false, false, false;
      ringSize, ring, rxOverflow, registry := size, "", false, commands;
      outs, reactions, dropped := [], [], 0;
    }

    // ----- Executing a line -----

    /** Compares the first `|text|` characters of the line, which ends at a NUL, with an upper-case text. */
    method SameIgnoreCase(n: nat, text: string) returns (same: bool)
      requires n < line.Length && line[n] == NUL && NUL !in text
      ensures same <==> |text| <= n && UpperAll(line[..|text|]) == UpperAll(text)
    {
      for i := 0 to |text|
        invariant i <= n && forall j | 0 <= j < i :: Upper(line[j]) == Upper(text[j])
      {
        assert text[i] in text;
        if Upper(line[i]) != Upper(text[i]) || Upper(line[i]) == NUL {
          assert |text| <= n ==> UpperAll(line[..|text|])[i] != UpperAll(text)[i];
          return false;
        }
      }
      return true;
    }

    method EqualsIgnoreCase(n: nat, text: string) returns (same: bool)
      requires n < line.Length && line[n] == NUL && NUL !in text
      ensures same <==> UpperAll(line[..n]) == UpperAll(text)
    {
      if n != |text| {
        return false;
      }
      same := SameIgnoreCase(n, text);
    }

    method MatchSpecial(n: nat) returns (r: Option<Request>)
      requires n < line.Length && line[n] == NUL
      ensures r == Special(UpperAll(line[..n]))
    {
      SpecialTextsAreUpper();
      var same := EqualsIgnoreCase(n, "AT");
      if same { return Some(Attention); }
      same := EqualsIgnoreCase(n, "AT?");
      if same { return Some(ListHelp); }
      same := EqualsIgnoreCase(n, "ATE");
      if same { return Some(ToggleEcho); }
      same := EqualsIgnoreCase(n, "ATE?");
      if same { return Some(EchoHelp); }
      same := EqualsIgnoreCase(n, "ATZ");
      if same { return Some(Reboot); }
      same := EqualsIgnoreCase(n, "ATZ?");
      if same { return Some(RebootHelp); }
      same := EqualsIgnoreCase(n, "ATR");
      if same { return Some(Restore); }
      same := EqualsIgnoreCase(n, "ATR?");
      if same { return Some(RestoreHelp); }
      r := None;
    }

    /** The first '=' or '?' after the prefix, or the end of the line. */
    method FindMark(n: nat) returns (k: nat)
      requires 3 <= n < line.Length && line[n] == NUL && NUL !in line[..n]
      ensures k == 3 + FirstMark(line[3..n])
    {
      k := 3;
      while line[k] != NUL && !IsMark(line[k])
        invariant 3 <= k <= n && forall i | 3 <= i < k :: !IsMark(line[i])
        decreases n - k
      {
        assert line[..n][k] == line[k];
        k := k + 1;
      }
      MarkIsUnique(line[3..n], k - 3);
    }

    /** Whether a NUL-terminated stretch of the line holds a character. */
    method Contains(from: nat, n: nat, c: char) returns (found: bool)
      requires from <= n < line.Length
      ensures found <==> c in line[from..n]
    {
      for i := from to n
        invariant c !in line[from..i]
      {
        if line[i] == c {
          return true;
        }
      }
      return false;
    }

    /** Upper-cases the name, which ends at the first NUL after the prefix. */
    method UppercaseName(end: nat)
      requires 3 <= end < line.Length && line[end] == NUL && NUL !in line[3..end]
      modifies line
      ensures line[3..end] == UpperAll(old(line[3..end]))
      ensures line[end..] == old(line[end..])
    {
      var i := 3;
      while line[i] != NUL
        invariant 3 <= i <= end
        invariant forall j | 3 <= j < i :: line[j] == Upper(old(line[j]))
        invariant forall j | i <= j < line.Length :: line[j] == old(line[j])
        decreases end - i
      {
        line[i] := Upper(line[i]);
        i := i + 1;
      }
    }

    /** Takes a line after its prefix apart, with a NUL written over its mark. */
    method SplitBody(n: nat) returns (r: Request)
      requires 3 <= n < line.Length && line[n] == NUL && NUL !in line[..n]
      modifies line
      ensures var body := old(line[3..n]);
              r == Tail(UpperAll(body[..FirstMark(body)]), body[FirstMark(body)..])
    {
      ghost var body := line[3..n];
      var separator := FindMark(n);
      ghost var name := body[..separator - 3];
      ghost var tail := body[separator - 3..];
      assert name == line[3..separator] && tail == line[separator..n];
      var op, argument := Run, None;
      if separator < n {
        assert tail[1..] == line[separator + 1..n];
        var asks := Contains(separator + 1, n, '?');
        if line[separator] == '?' && separator + 1 == n {
          op := Help;
        } else if line[separator] == '=' && line[separator + 1] == '?' && separator + 2 == n {
          op := Read;
        } else if line[separator] == '=' && line[separator + 1] != NUL && !asks {
          op := Write;
          argument := Some(line[separator + 1..n]);
        } else {
          return Malformed;
        }
        line[separator] := NUL;
      }
      if line[3] == NUL {
        return Malformed;
      }
      UppercaseName(separator);
      r := Invoke(line[3..separator], op, argument);
    }

    method Execute(n: nat) returns (r: Request)
      requires n < line.Length && line[n] == NUL && NUL !in line[..n]
      modifies line
      ensures r == React(locked, old(line[..n]))
    {
      ghost var text := line[..n];
      var special := MatchSpecial(n);
      if special.Some? {
        return special.value;
      }
      SpecialTextsAreUpper();
      var prefixed := SameIgnoreCase(n, PREFIX);
      if !prefixed {
        return Malformed;
      }
      assert text[3..] == line[3..n];
      r := SplitBody(n);
      if r.Invoke? && locked && r.name != "PWORD" && r.name != "LOCK" {
        r := Malformed;
      }
    }

    /** Executes the line and lets the registry serve an invocation; only a handler that is called may move the lock. */
    method ExecuteLine(n: nat)
      requires Valid() && n < line.Length && line[n] == NUL && NUL !in line[..n]
      modifies line, this`reactions, this`locked
      ensures Valid() && reactions == old(reactions) + [old(ReactionTo(line[..n]))]
      ensures !CallsHandler(reactions[|old(reactions)|]) ==> locked == old(locked)
    {
      var r := Execute(n);
      if r.Invoke? {
        var outcome := registry.Find(r.name, r.op, r.argument);
        reactions := reactions + [Reaction(r, Some(outcome))];
        if outcome.Call? {
          var moved: bool := *;
          locked := moved;
        }
      } else {
        reactions := reactions + [Reaction(r, None)];
      }
    }

    // ----- The input path -----

    /** A line end: reports an overflowed line, executes any other that is not empty. */
    method EndLine()
      requires Valid() && AtLine.Printable(line[..lineLength])
      modifies line, this`lineLength, this`lineOverflow, this`outs, this`reactions, this`locked
      ensures Valid() && lineLength == 0 && !lineOverflow
      ensures outs == old(outs) + Reply(Draft(old(line[..lineLength]), old(lineOverflow)))
      ensures reactions == old(reactions)
              + if old(lineLength) != 0 && !old(lineOverflow) then [old(ReactionTo(line[..lineLength]))] else []
      ensures old(lineLength) == 0 || old(lineOverflow) ==> locked == old(locked)
    {
      if lineOverflow {
        lineOverflow := false;
        lineLength := 0;
        outs := outs + [OverflowReport];
      } else if lineLength != 0 {
        var n := lineLength;
        line[n] := NUL;
        lineLength := 0;
        outs := outs + [AtLine.Execute(line[..n])];
        ExecuteLine(n);
      }
    }

    /** One byte from the ring; `rc` is what the parser returns when its status reply succeeds. */
    method FeedByte(c: char) returns (rc: int)
      requires Valid() && AtLine.Printable(line[..lineLength])
      modifies line, this`lineLength, this`lineOverflow, this`ignoreLf, this`outs, this`reactions, this`locked
      ensures Valid() && AtLine.Printable(line[..lineLength])
      ensures var r := Feed(line.Length, old(Edited()), c);
              && Edited() == r.editor && outs == old(outs) + r.outs
              && reactions == old(reactions)
                 + if r.outs != [] && r.outs[0].Execute? then [old(ReactionTo(r.outs[0].line))] else []
      ensures reactions == old(reactions) ==> locked == old(locked)
      ensures rc == if IsPrintable(c) && old(lineLength) + 1 >= line.Length then ERR_OVERFLOW else OK
    {
      rc := OK;
      if c == LF && ignoreLf {
        ignoreLf := false;
        return;
      }
      ignoreLf := false;
      if IsErase(c) {
        if lineLength != 0 {
          lineLength := lineLength - 1;
        }
        return;
      }
      if IsEnd(c) {
        ignoreLf := c == CR;
        EndLine();
        return;
      }
      if c < ' ' || c > '~' {
        return;
      }
      if lineLength >= line.Length - 1 {
        lineOverflow := true;
        return ERR_OVERFLOW;
      }
      line[lineLength] := c;
      lineLength := lineLength + 1;
    }

    /** Called at interrupt level: copies what fits into the ring. */
    method ReceiveBytes(data: string) returns (rc: int)
      requires Valid()
      modifies this`ring, this`rxOverflow, this`dropped
      ensures Valid()
      ensures !started ==> rc == ERR_NOT_READY && Now() == old(Now())
      ensures started ==> Now() == Receive(Limits(), old(Now()), data)
                          && rc == if old(|ring|) + |data| <= ringSize then OK else ERR_OVERFLOW
    {
      if !started {
        return ERR_NOT_READY;
      }
      var written := Min(|data|, ringSize - |ring|);
      ring := ring + data[..written];
      if written != |data| {
        rxOverflow := true;
        dropped := dropped + (|data| - written);
      }
      rc := if written == |data| then OK else ERR_OVERFLOW;
    }

    method CheckOverflow()
      requires Valid()
      modifies this`rxOverflow, this`lineLength, this`lineOverflow, this`ignoreLf, this`outs, this`dropped
      ensures Valid() && Now() == CheckLatch(old(Now()))
    {
      if rxOverflow {
        rxOverflow := false;
        lineLength, lineOverflow, ignoreLf := 0, false, false;
        outs := outs + [OverflowReport];
        dropped := 0;
      }
    }

    method FeedBuffer(buffer: string)
      requires Valid() && AtLine.Printable(line[..lineLength])
      modifies line, this`lineLength, this`lineOverflow, this`ignoreLf, this`outs, this`reactions, this`locked
      ensures Valid() && AtLine.Printable(line[..lineLength])
      ensures var r := FeedAll(line.Length, old(Edited()), buffer);
              Edited() == r.editor && outs == old(outs) + r.outs
      ensures Extends(registry.Table(), old(outs), old(reactions), outs, reactions)
      ensures UnderLock(registry.Table(), old(locked), old(outs), old(reactions), outs, reactions, locked)
    {
      ghost var e, before, served, table, first := Edited(), outs, reactions, registry.Table(), locked;
      assert before + [] == before;
      NothingYet(table, first, before, served);
      for i := 0 to |buffer|
        invariant Valid() && AtLine.Printable(line[..lineLength])
        invariant Edited() == FeedAll(line.Length, e, buffer[..i]).editor
        invariant outs == before + FeedAll(line.Length, e, buffer[..i]).outs
        invariant Extends(table, before, served, outs, reactions)
        invariant UnderLock(table, first, before, served, outs, reactions, locked)
      {
        FeedOneMore(line.Length, e, buffer, i);
        FeedOne(buffer[i], before, served, first);
      }
      assert buffer[..|buffer|] == buffer;
    }

    /** One byte more, with the reactions since some earlier point. */
    method FeedOne(c: char, ghost before: seq<Output>, ghost served: seq<Reaction>, ghost first: bool)
      requires Valid() && AtLine.Printable(line[..lineLength])
      requires Extends(registry.Table(), before, served, outs, reactions)
      requires UnderLock(registry.Table(), first, before, served, outs, reactions, locked)
      modifies line, this`lineLength, this`lineOverflow, this`ignoreLf, this`outs, this`reactions, this`locked
      ensures Valid() && AtLine.Printable(line[..lineLength])
      ensures var r := Feed(line.Length, old(Edited()), c); Edited() == r.editor && outs == old(outs) + r.outs
      ensures Extends(registry.Table(), before, served, outs, reactions)
      ensures UnderLock(registry.Table(), first, before, served, outs, reactions, locked)
    {
      ghost var o, r, more, lock := outs, reactions, Feed(line.Length, Edited(), c).outs, locked;
      ExtendsByOne(registry.Table(), o, r, more, locked);
      var _ := FeedByte(c);
      ExtendsTransitively(registry.Table(), before, served, o, r, outs, reactions);
      UnderLockAgain(registry.Table(), first, before, served, o, r, lock, more, reactions, locked);
    }

    /** Takes up to 64 bytes out of the ring and feeds them one by one. */
    method MoveChunk() returns (count: nat)
      requires Valid() && AtLine.Printable(line[..lineLength])
      modifies this, line
      ensures Valid() && AtLine.Printable(line[..lineLength])
      ensures count == Min(CHUNK, old(|ring|)) && Now() == Transfer(Limits(), old(Now()))
      ensures Extends(registry.Table(), old(outs), old(reactions), outs, reactions)
    {
      count := Min(CHUNK, |ring|);
      var buffer := ring[..count];
      ring := ring[count..];
      FeedBuffer(buffer);
    }

    /**
     * One pass of the thread, with no arrival in between: everything in the ring is fed, and every executed line
     * gets one reaction, in order.
     */
    method ProcessInput()
      requires Valid() && AtLine.Printable(line[..lineLength])
      modifies this, line
      ensures Valid() && AtLine.Printable(line[..lineLength])
      ensures ring == "" && Result(Edited(), outs) == Settled(Limits(), CheckLatch(old(Now())))
      ensures Extends(registry.Table(), old(outs), old(reactions), outs, reactions)
    {
      ghost var before, served := outs, reactions;
      CheckOverflow();
      ghost var p := Now();
      ExtendsByOne(registry.Table(), before, served, outs[|before|..], locked);
      assert before + outs[|before|..] == outs && served + [] == reactions;
      var count := 1;
      while count != 0
        invariant Valid() && AtLine.Printable(line[..lineLength])
        invariant Settled(Limits(), Now()) == Settled(Limits(), p)
        invariant count == 0 ==> ring == ""
        invariant Extends(registry.Table(), before, served, outs, reactions)
        decreases |ring| + count
      {
        count := MoveOn(p, before, served);
      }
      DrainedIsSettled(Limits(), Now());
    }

    method MoveOn(ghost p: Port, ghost before: seq<Output>, ghost served: seq<Reaction>) returns (count: nat)
      requires Valid() && AtLine.Printable(line[..lineLength])
      requires Settled(Limits(), Now()) == Settled(Limits(), p)
      requires Extends(registry.Table(), before, served, outs, reactions)
      modifies this, line
      ensures Valid() && AtLine.Printable(line[..lineLength])
      ensures Settled(Limits(), Now()) == Settled(Limits(), p)
      ensures count == Min(CHUNK, old(|ring|)) && |ring| == old(|ring|) - count
      ensures Extends(registry.Table(), before, served, outs, reactions)
    {
      ghost var now, o, r := Now(), outs, reactions;
      count := MoveChunk();
      MoveSettles(Limits(), now);
      ExtendsTransitively(registry.Table(), before, served, o, r, outs, reactions);
    }
  }

  /**
   * From keystrokes to dispatch: a printed command, in any letter case of prefix and name and with any line end,
   * makes exactly one execution, which asks for that command unless the lock refuses its name.
   */
  lemma TypedCommandDispatches(max: nat, r: Request, text: string, end: string)
    requires WellFormed(r) && Spells(text, r) && AtLine.Printable(text) && |text| < max && end in ENDS
    ensures FeedAll(max, RESET, text + end).outs == [AtLine.Execute(text)]
    ensures React(false, text) == r
    ensures React(true, text) == if ServedLocked(r.name) then r else Malformed
  {
    forall i | 0 <= i < |text|
      ensures !IsEnd(text[i])
    {
      assert IsPrintable(text[i]);
    }
    OneLine(max, RESET, text, end);
    PrintableSegment(max, text);
    SpelledParses(text, r);
  }

  lemma SpecialTextsAreUpper()
    ensures forall t | t in {"AT", "AT?", "ATE", "ATE?", "ATZ", "ATZ?", "ATR", "ATR?"} :: UpperAll(t) == t
    ensures UpperAll(PREFIX) == PREFIX
  {
  }
}
