/** The command grammar of the AT service: from an edited line to the one reaction it causes. */
module AtGrammar {
  import opened Options

  datatype Operation = Run | Help | Read | Write

  /** What a line asks for, before the lock is looked at. */
  datatype Request =
    | Attention | ListHelp
    | ToggleEcho | EchoHelp
    | Reboot | RebootHelp
    | Restore | RestoreHelp
    | Invoke(name: string, op: Operation, argument: Option<string>)
    | Malformed

  const PREFIX := "AT+"

  /** ASCII upper case. */
  function Upper(c: char): char {
    if 'a' <= c <= 'z' then (c as int - 32) as char else c
  }

  function UpperAll(s: string): (r: string)
    ensures |r| == |s| && forall i | 0 <= i < |s| :: r[i] == Upper(s[i])
  {
    seq(|s|, i requires 0 <= i < |s| => Upper(s[i]))
  }

  predicate IsMark(c: char) {
    c == '=' || c == '?'
  }

  /** Index of the first '=' or '?', or the length. */
  function FirstMark(s: string): (k: nat)
    ensures k <= |s| && (forall i | 0 <= i < k :: !IsMark(s[i])) && (k < |s| ==> IsMark(s[k]))
  {
    if s == "" || IsMark(s[0]) then 0 else 1 + FirstMark(s[1..])
  }

  /** The lines without a name. */
  function Special(upper: string): Option<Request> {
    if upper == "AT" then Some(Attention)
    else if upper == "AT?" then Some(ListHelp)
    else if upper == "ATE" then Some(ToggleEcho)
    else if upper == "ATE?" then Some(EchoHelp)
    else if upper == "ATZ" then Some(Reboot)
    else if upper == "ATZ?" then Some(RebootHelp)
    else if upper == "ATR" then Some(Restore)
    else if upper == "ATR?" then Some(RestoreHelp)
    else None
  }

  /** What follows a name, from the first mark on. */
  function Tail(name: string, tail: string): Request {
    if name == "" then Malformed
    else if tail == "" then Invoke(name, Run, None)
    else if tail == "?" then Invoke(name, Help, None)
    else if tail == "=?" then Invoke(name, Read, None)
    else if tail[0] == '=' && |tail| > 1 && '?' !in tail[1..] then Invoke(name, Write, Some(tail[1..]))
    else Malformed
  }

  function Parse(line: string): Request {
    var special := Special(UpperAll(line));
    if special.Some? then special.value
    else if |line| < 3 || UpperAll(line[..3]) != PREFIX then Malformed
    else
      var body := line[3..];
      Tail(UpperAll(body[..FirstMark(body)]), body[FirstMark(body)..])
  }

  // ----- The printer -----

  /** A request a registered command could serve: no lower case, no mark in the name, an argument only for a write. */
  predicate WellFormed(r: Request) {
    && r.Invoke? && r.name != "" && UpperAll(r.name) == r.name
    && (forall i | 0 <= i < |r.name| :: !IsMark(r.name[i]))
    && r.argument.Some? == r.op.Write?
    && (r.op.Write? ==> r.argument.value != "" && '?' !in r.argument.value)
  }

  function Suffix(r: Request): string
    requires WellFormed(r)
  {
    match r.op
    case Run => ""
    case Help => "?"
    case Read => "=?"
    case Write => "=" + r.argument.value
  }

  function Print(r: Request): string
    requires WellFormed(r)
  {
    PREFIX + r.name + Suffix(r)
  }

  /** The line is the printed request up to the letter case of its prefix and name. */
  predicate Spells(line: string, r: Request)
    requires WellFormed(r)
  {
    var n := 3 + |r.name|;
    |line| >= n && UpperAll(line[..n]) == PREFIX + r.name && line[n..] == Suffix(r)
  }

  lemma PrintSpells(r: Request)
    requires WellFormed(r)
    ensures Spells(Print(r), r)
  {
    var n := 3 + |r.name|;
    assert Print(r)[..n] == PREFIX + r.name && Print(r)[n..] == Suffix(r);
    assert UpperAll(PREFIX + r.name) == PREFIX + r.name by {
      forall i | 0 <= i < n
        ensures Upper((PREFIX + r.name)[i]) == (PREFIX + r.name)[i]
      {
        if i >= 3 {
          assert r.name[i - 3] == UpperAll(r.name)[i - 3];
        }
      }
    }
  }

  lemma MarkIsUnique(s: string, k: nat)
    requires k <= |s| && (forall i | 0 <= i < k :: !IsMark(s[i])) && (k < |s| ==> IsMark(s[k]))
    ensures FirstMark(s) == k
  {
  }

  /** A line with the prefix is no special line. */
  lemma PrefixIsNotSpecial(line: string)
    requires |line| >= 3 && UpperAll(line)[..3] == PREFIX
    ensures Special(UpperAll(line)) == None
  {
    assert UpperAll(line)[2] == '+';
  }

  lemma UpperTake(s: string, i: nat)
    requires i <= |s|
    ensures UpperAll(s[..i]) == UpperAll(s)[..i]
  {
  }

  lemma UpperDrop(s: string, i: nat)
    requires i <= |s|
    ensures UpperAll(s[i..]) == UpperAll(s)[i..]
  {
  }

  /** The three parts of a line that spells a request. */
  lemma SpelledParts(line: string, r: Request)
    requires WellFormed(r) && Spells(line, r)
    ensures |line| >= 3 + |r.name| && UpperAll(line)[..3] == UpperAll(line[..3]) == PREFIX
    ensures UpperAll(line[3..][..|r.name|]) == r.name && line[3..][|r.name|..] == Suffix(r)
  {
    var n, head := |r.name|, line[..3 + |r.name|];
    UpperTake(line, 3);
    UpperTake(head, 3);
    assert head[..3] == line[..3] && (PREFIX + r.name)[..3] == PREFIX;
    UpperDrop(head, 3);
    assert head[3..] == line[3..][..n] && (PREFIX + r.name)[3..] == r.name;
    assert line[3..][n..] == line[3 + n..];
  }

  /** Upper-casing neither makes nor removes a mark. */
  lemma NameHasNoMark(name: string, upper: string)
    requires UpperAll(name) == upper && forall i | 0 <= i < |upper| :: !IsMark(upper[i])
    ensures forall i | 0 <= i < |name| :: !IsMark(name[i])
  {
    forall i | 0 <= i < |name|
      ensures !IsMark(name[i])
    {
      assert upper[i] == Upper(name[i]);
    }
  }

  lemma SuffixParses(r: Request)
    requires WellFormed(r)
    ensures Tail(r.name, Suffix(r)) == r && (Suffix(r) != "" ==> IsMark(Suffix(r)[0]))
  {
    if r.op.Write? {
      assert Suffix(r)[1..] == r.argument.value && |Suffix(r)| > 1 && Suffix(r)[0] == '=';
    }
  }

  /** A body is cut where its name ends. */
  lemma BodySplits(body: string, n: nat)
    requires n <= |body| && (forall i | 0 <= i < n :: !IsMark(body[..n][i]))
    requires body[n..] != "" ==> IsMark(body[n..][0])
    ensures FirstMark(body) == n
  {
    forall i | 0 <= i < n
      ensures !IsMark(body[i])
    {
      assert body[i] == body[..n][i];
    }
    MarkIsUnique(body, n);
  }

  /** Printing then parsing, in any letter case of prefix and name, gives back the request. */
  lemma SpelledParses(line: string, r: Request)
    requires WellFormed(r) && Spells(line, r)
    ensures Parse(line) == r
  {
    var n, body := |r.name|, line[3..];
    SpelledParts(line, r);
    PrefixIsNotSpecial(line);
    NameHasNoMark(body[..n], r.name);
    SuffixParses(r);
    BodySplits(body, n);
  }

  /** In particular, the printed form itself. */
  lemma PrintParses(r: Request)
    requires WellFormed(r)
    ensures Parse(Print(r)) == r
  {
    PrintSpells(r);
    SpelledParses(Print(r), r);
  }

  lemma UpperTwice(s: string)
    ensures UpperAll(UpperAll(s)) == UpperAll(s)
  {
    forall i | 0 <= i < |s|
      ensures UpperAll(UpperAll(s))[i] == UpperAll(s)[i]
    {
      assert Upper(Upper(s[i])) == Upper(s[i]);
    }
  }

  lemma UpperKeepsMarks(name: string)
    requires forall i | 0 <= i < |name| :: !IsMark(name[i])
    ensures forall i | 0 <= i < |name| :: !IsMark(UpperAll(name)[i])
  {
    forall i | 0 <= i < |name|
      ensures !IsMark(UpperAll(name)[i])
    {
      assert UpperAll(name)[i] == Upper(name[i]);
    }
  }

  /** What a tail that parses says of its request. */
  lemma TailSpells(name: string, tail: string)
    requires Tail(name, tail).Invoke?
    ensures var r := Tail(name, tail);
            && r.name == name != "" && r.argument.Some? == r.op.Write?
            && (r.op.Write? ==> r.argument.value != "" && '?' !in r.argument.value && tail == "=" + r.argument.value)
            && (r.op.Run? ==> tail == "") && (r.op.Help? ==> tail == "?") && (r.op.Read? ==> tail == "=?")
  {
    if tail != "" && tail != "?" && tail != "=?" {
      assert tail == [tail[0]] + tail[1..] && [tail[0]] == "=";
    }
  }

  lemma HeadSpells(line: string, k: nat)
    requires 3 + k <= |line|
    ensures UpperAll(line[..3 + k]) == UpperAll(line[..3]) + UpperAll(line[3..][..k])
  {
    var head := line[..3 + k];
    UpperTake(head, 3);
    UpperDrop(head, 3);
    assert head[..3] == line[..3] && head[3..] == line[3..][..k];
    assert UpperAll(head) == UpperAll(head)[..3] + UpperAll(head)[3..];
  }

  /** What a line that parses to an invocation is made of. */
  lemma ParsedParts(line: string)
    requires Parse(line).Invoke?
    ensures |line| >= 3 && UpperAll(line[..3]) == PREFIX
    ensures var body := line[3..];
            Parse(line) == Tail(UpperAll(body[..FirstMark(body)]), body[FirstMark(body)..])
  {
  }

  /** Parsing then printing gives back the line, up to the letter case of prefix and name. */
  lemma ParsedSpells(line: string)
    requires Parse(line).Invoke?
    ensures WellFormed(Parse(line)) && Spells(line, Parse(line))
  {
    ParsedParts(line);
    var r, body := Parse(line), line[3..];
    var k := FirstMark(body);
    TailSpells(UpperAll(body[..k]), body[k..]);
    UpperTwice(body[..k]);
    UpperKeepsMarks(body[..k]);
    HeadSpells(line, k);
    assert line[3 + k..] == body[k..];
  }

  /** Printer and parser are inverse: a line asks for a request exactly when it spells it. */
  lemma ParsesIffSpells(line: string, r: Request)
    requires WellFormed(r)
    ensures Parse(line) == r <==> Spells(line, r)
  {
    if Parse(line) == r {
      ParsedSpells(line);
    }
    if Spells(line, r) {
      SpelledParses(line, r);
    }
  }

  // ----- The lock -----

  /** The only names a locked service serves. */
  predicate ServedLocked(name: string) {
    name == "PWORD" || name == "LOCK"
  }

  /** The reaction to a line: a locked service answers other invocations as it answers malformed lines. */
  function React(locked: bool, line: string): Request {
    var r := Parse(line);
    if locked && r.Invoke? && !ServedLocked(r.name) then Malformed else r
  }
}
