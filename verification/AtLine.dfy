/** The line editor of the AT service: what a stream of received bytes, as characters, makes it execute. */
module AtLine {
  const CR := '\r'
  const LF := '\n'
  const BACKSPACE: char := 8 as char
  const DELETE: char := 127 as char

  /** `line[..line_length]` and the two latches. */
  datatype Editor = Editor(line: string, overflow: bool, ignoreLf: bool)

  const RESET := Editor("", false, false)

  datatype Output = Execute(line: string) | OverflowReport

  datatype Result = Result(editor: Editor, outs: seq<Output>)

  predicate IsEnd(c: char) {
    c == CR || c == LF
  }

  predicate IsErase(c: char) {
    c == BACKSPACE || c == DELETE
  }

  predicate IsPrintable(c: char) {
    ' ' <= c <= '~'
  }

  predicate Printable(s: string) {
    forall i | 0 <= i < |s| :: IsPrintable(s[i])
  }

  predicate NoEnd(s: string) {
    forall i | 0 <= i < |s| :: !IsEnd(s[i])
  }

  /** One received byte. */
  function Feed(max: nat, e: Editor, c: char): Result {
    if c == LF && e.ignoreLf then Result(e.(ignoreLf := false), [])
    else if IsErase(c) then
      Result(e.(line := if e.line == "" then "" else e.line[..|e.line| - 1], ignoreLf := false), [])
    else if IsEnd(c) then
      Result(Editor("", false, c == CR),
             if e.overflow then [OverflowReport] else if e.line != "" then [Execute(e.line)] else [])
    else if !IsPrintable(c) then Result(e.(ignoreLf := false), [])
    else if |e.line| + 1 >= max then Result(e.(overflow := true, ignoreLf := false), [])
    else Result(e.(line := e.line + [c], ignoreLf := false), [])
  }

  function FeedAll(max: nat, e: Editor, s: string): Result
    decreases |s|
  {
    if s == "" then Result(e, [])
    else
      var before := FeedAll(max, e, s[..|s| - 1]);
      var r := Feed(max, before.editor, s[|s| - 1]);
      Result(r.editor, before.outs + r.outs)
  }

  lemma FeedOneMore(max: nat, e: Editor, s: string, i: nat)
    requires i < |s|
    ensures var before := FeedAll(max, e, s[..i]);
            var r := Feed(max, before.editor, s[i]);
            FeedAll(max, e, s[..i + 1]) == Result(r.editor, before.outs + r.outs)
  {
    assert s[..i + 1][..i] == s[..i];
  }

  /** Chunking does not matter: a stream fed in two parts does what it does in one. */
  lemma {:induction false} ChunksCompose(max: nat, e: Editor, a: string, b: string)
    ensures var first := FeedAll(max, e, a);
            var second := FeedAll(max, first.editor, b);
            FeedAll(max, e, a + b) == Result(second.editor, first.outs + second.outs)
    decreases |b|
  {
    if b == "" {
      assert a + b == a;
    } else {
      var n := |b| - 1;
      assert (a + b)[..|a + b| - 1] == a + b[..n];
      ChunksCompose(max, e, a, b[..n]);
    }
  }

  // ----- What holds of the buffer at every byte -----

  /** The line fits with its terminator, is printable, and a skipped LF never hides typed input. */
  predicate Sound(max: nat, e: Editor) {
    && |e.line| < max && Printable(e.line)
    && (e.ignoreLf ==> e.line == "" && !e.overflow)
  }

  predicate SoundOutput(max: nat, o: Output) {
    o.Execute? ==> 1 <= |o.line| < max && Printable(o.line)
  }

  /** From any sound editor: every executed line has 1 to max - 1 printable characters. */
  lemma {:induction false} FeedKeepsSound(max: nat, e: Editor, s: string)
    requires Sound(max, e)
    ensures Sound(max, FeedAll(max, e, s).editor)
    ensures forall o | o in FeedAll(max, e, s).outs :: SoundOutput(max, o)
    decreases |s|
  {
    if s != "" {
      FeedKeepsSound(max, e, s[..|s| - 1]);
    }
  }

  // ----- The reference: split into segments, then edit each on its own -----

  /** The pieces between line ends; the last one has not ended yet. */
  function Segments(s: string): (segs: seq<string>)
    ensures |segs| > 0
    decreases |s|
  {
    if s == "" then [""]
    else
      var segs, c := Segments(s[..|s| - 1]), s[|s| - 1];
      if IsEnd(c) then segs + [""] else segs[..|segs| - 1] + [segs[|segs| - 1] + [c]]
  }

  datatype Draft = Draft(line: string, overflow: bool)

  function Key(max: nat, d: Draft, c: char): Draft {
    if IsErase(c) then Draft(if d.line == "" then "" else d.line[..|d.line| - 1], d.overflow)
    else if !IsPrintable(c) then d
    else if |d.line| + 1 >= max then Draft(d.line, true)
    else Draft(d.line + [c], d.overflow)
  }

  /** What typing a segment leaves in an empty buffer. */
  function Typed(max: nat, seg: string): Draft
    decreases |seg|
  {
    if seg == "" then Draft("", false) else Key(max, Typed(max, seg[..|seg| - 1]), seg[|seg| - 1])
  }

  function Reply(d: Draft): seq<Output> {
    if d.overflow then [OverflowReport] else if d.line != "" then [Execute(d.line)] else []
  }

  function Replies(max: nat, segs: seq<string>): seq<Output> {
    if segs == [] then [] else Replies(max, segs[..|segs| - 1]) + Reply(Typed(max, segs[|segs| - 1]))
  }

  /** Inside a line, a byte edits the draft and says nothing. */
  lemma InsideLine(max: nat, e: Editor, c: char)
    requires !IsEnd(c)
    ensures var r := Feed(max, e, c);
            r.outs == [] && Draft(r.editor.line, r.editor.overflow) == Key(max, Draft(e.line, e.overflow), c)
            && !r.editor.ignoreLf
  {
  }

  /** A line end replies to the draft and starts afresh; a skipped LF finds nothing to reply to. */
  lemma AtLineEnd(max: nat, e: Editor, c: char)
    requires IsEnd(c) && (e.ignoreLf ==> e.line == "" && !e.overflow)
    ensures var r := Feed(max, e, c);
            r.outs == Reply(Draft(e.line, e.overflow)) && r.editor.line == "" && !r.editor.overflow
  {
  }

  /**
   * The editor refines the reference: its outputs are the replies to the ended segments, each edited from an
   * empty buffer, and its buffer is the draft of the open one.
   */
  lemma {:induction false} EditorRefinesSegments(max: nat, s: string)
    requires max > 0
    ensures var r, segs := FeedAll(max, RESET, s), Segments(s);
            && r.outs == Replies(max, segs[..|segs| - 1])
            && Draft(r.editor.line, r.editor.overflow) == Typed(max, segs[|segs| - 1])
            && (r.editor.ignoreLf ==> segs[|segs| - 1] == "")
    decreases |s|
  {
    if s != "" {
      var before := Segments(s[..|s| - 1]);
      EditorRefinesSegments(max, s[..|s| - 1]);
      var segs, last := Segments(s), |before| - 1;
      var e := FeedAll(max, RESET, s[..|s| - 1]).editor;
      if IsEnd(s[|s| - 1]) {
        AtLineEnd(max, e, s[|s| - 1]);
        assert segs[..|segs| - 1] == before;
      } else {
        InsideLine(max, e, s[|s| - 1]);
        assert segs[..|segs| - 1] == before[..last];
        assert segs[last][..|segs[last]| - 1] == before[last];
      }
    }
  }

  /** What a buffer keeps of printable input alone. */
  function Kept(max: nat, seg: string): Draft
    requires max > 0
  {
    Draft(if |seg| < max then seg else seg[..max - 1], |seg| >= max)
  }

  lemma KeepOne(max: nat, seg: string, c: char)
    requires max > 0 && IsPrintable(c)
    ensures Key(max, Kept(max, seg), c) == Kept(max, seg + [c])
  {
    if |seg| >= max {
      assert (seg + [c])[..max - 1] == seg[..max - 1];
    } else if |seg| == max - 1 {
      assert (seg + [c])[..max - 1] == seg;
    }
  }

  /** A printable segment is taken as it is, or overflows exactly when it does not fit. */
  lemma {:induction false} PrintableSegment(max: nat, seg: string)
    requires max > 0 && Printable(seg)
    ensures Typed(max, seg) == Kept(max, seg)
    decreases |seg|
  {
    if seg != "" {
      var n := |seg| - 1;
      PrintableSegment(max, seg[..n]);
      assert IsPrintable(seg[n]) && seg[..n] + [seg[n]] == seg;
      KeepOne(max, seg[..n], seg[n]);
    }
  }

  // ----- The choice of line ends -----

  const ENDS: set<string> := {[CR], [LF], [CR, LF]}

  predicate AtRest(e: Editor) {
    e.line == "" && !e.overflow
  }

  /** Typing inside a line, from an empty buffer. */
  lemma {:induction false} TypingOnly(max: nat, e: Editor, seg: string)
    requires AtRest(e) && NoEnd(seg)
    ensures var r := FeedAll(max, e, seg);
            && r.outs == [] && Draft(r.editor.line, r.editor.overflow) == Typed(max, seg)
            && (seg == "" ==> r.editor == e) && (seg != "" ==> !r.editor.ignoreLf)
    decreases |seg|
  {
    if seg != "" {
      TypingOnly(max, e, seg[..|seg| - 1]);
      assert !IsEnd(seg[|seg| - 1]);
    }
  }

  lemma OneEnd(max: nat, e: Editor, c: char)
    requires IsEnd(c) && (e.ignoreLf ==> AtRest(e))
    ensures FeedAll(max, e, [c]).outs == Reply(Draft(e.line, e.overflow)) && AtRest(FeedAll(max, e, [c]).editor)
  {
    assert [c][..0] == "";
    assert FeedAll(max, e, []) == Result(e, []);
  }

  lemma EndOfLine(max: nat, e: Editor, end: string)
    requires end in ENDS && (e.ignoreLf ==> AtRest(e))
    ensures FeedAll(max, e, end).outs == Reply(Draft(e.line, e.overflow)) && AtRest(FeedAll(max, e, end).editor)
  {
    OneEnd(max, e, end[0]);
    if end == [CR, LF] {
      var r := FeedAll(max, e, [CR]);
      ChunksCompose(max, e, [CR], [LF]);
      assert [CR] + [LF] == end;
      OneEnd(max, r.editor, LF);
    }
  }

  lemma OneLine(max: nat, e: Editor, seg: string, end: string)
    requires AtRest(e) && NoEnd(seg) && end in ENDS
    ensures FeedAll(max, e, seg + end).outs == Reply(Typed(max, seg)) && AtRest(FeedAll(max, e, seg + end).editor)
  {
    TypingOnly(max, e, seg);
    ChunksCompose(max, e, seg, end);
    EndOfLine(max, FeedAll(max, e, seg).editor, end);
  }

  /** Lines, each followed by an end of its own choice. */
  function Transcript(lines: seq<string>, ends: seq<string>): string
    requires |lines| == |ends|
  {
    if lines == [] then ""
    else Transcript(lines[..|lines| - 1], ends[..|ends| - 1]) + (lines[|lines| - 1] + ends[|ends| - 1])
  }

  predicate AllLines(lines: seq<string>, ends: seq<string>) {
    |lines| == |ends| && forall i | 0 <= i < |lines| :: NoEnd(lines[i]) && ends[i] in ENDS
  }

  lemma OneMoreLine(max: nat, start: string, seg: string, end: string)
    requires AtRest(FeedAll(max, RESET, start).editor) && NoEnd(seg) && end in ENDS
    ensures FeedAll(max, RESET, start + (seg + end)).outs == FeedAll(max, RESET, start).outs + Reply(Typed(max, seg))
    ensures AtRest(FeedAll(max, RESET, start + (seg + end)).editor)
  {
    ChunksCompose(max, RESET, start, seg + end);
    OneLine(max, FeedAll(max, RESET, start).editor, seg, end);
  }

  /** CR, LF and CRLF are interchangeable, line by line: the outputs depend on the lines alone. */
  lemma {:induction false} EndsAreInterchangeable(max: nat, lines: seq<string>, ends: seq<string>)
    requires AllLines(lines, ends)
    ensures FeedAll(max, RESET, Transcript(lines, ends)).outs == Replies(max, lines)
    ensures AtRest(FeedAll(max, RESET, Transcript(lines, ends)).editor)
    decreases |lines|
  {
    if lines == [] {
      assert FeedAll(max, RESET, "") == Result(RESET, []);
    } else {
      var n := |lines| - 1;
      EndsAreInterchangeable(max, lines[..n], ends[..n]);
      OneMoreLine(max, Transcript(lines[..n], ends[..n]), lines[n], ends[n]);
    }
  }
}
