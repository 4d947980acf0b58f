/** What a receive overflow does to the lines it cuts: which of them are still executed. */
module AtLoss {
  import opened AtLine
  import opened AtInput

  const NOTHING_TYPED := Draft("", false)

  function DraftOf(e: Editor): Draft {
    Draft(e.line, e.overflow)
  }

  /** The draft after a stretch of input, line ends included. */
  function DraftAfter(max: nat, d: Draft, s: string): Draft
    decreases |s|
  {
    if s == "" then d
    else
      var before, c := DraftAfter(max, d, s[..|s| - 1]), s[|s| - 1];
      if IsEnd(c) then NOTHING_TYPED else Key(max, before, c)
  }

  /** The reply at each line end of a stretch of input, empty where nothing was typed. */
  function EndReplies(max: nat, d: Draft, s: string): seq<seq<Output>>
    decreases |s|
  {
    if s == "" then []
    else
      var init := s[..|s| - 1];
      EndReplies(max, d, init) + if IsEnd(s[|s| - 1]) then [Reply(DraftAfter(max, d, init))] else []
  }

  function Flat(replies: seq<seq<Output>>): seq<Output> {
    if replies == [] then [] else Flat(replies[..|replies| - 1]) + replies[|replies| - 1]
  }

  lemma {:induction false} SameEnds(max: nat, a: Draft, b: Draft, s: string)
    ensures |EndReplies(max, a, s)| == |EndReplies(max, b, s)|
    decreases |s|
  {
    if s != "" {
      SameEnds(max, a, b, s[..|s| - 1]);
    }
  }

  lemma {:induction false} RepliesCompose(max: nat, d: Draft, a: string, b: string)
    ensures DraftAfter(max, d, a + b) == DraftAfter(max, DraftAfter(max, d, a), b)
    ensures EndReplies(max, d, a + b) == EndReplies(max, d, a) + EndReplies(max, DraftAfter(max, d, a), b)
    decreases |b|
  {
    if b == "" {
      assert a + b == a;
    } else {
      assert (a + b)[..|a + b| - 1] == a + b[..|b| - 1];
      RepliesCompose(max, d, a, b[..|b| - 1]);
    }
  }

  /** The editor replies line end by line end. */
  lemma {:induction false} EditorReplies(max: nat, e: Editor, s: string)
    requires e.ignoreLf ==> AtRest(e)
    ensures var r := FeedAll(max, e, s);
            && r.outs == Flat(EndReplies(max, DraftOf(e), s)) && DraftOf(r.editor) == DraftAfter(max, DraftOf(e), s)
            && (r.editor.ignoreLf ==> AtRest(r.editor))
    decreases |s|
  {
    if s != "" {
      var init, c := s[..|s| - 1], s[|s| - 1];
      EditorReplies(max, e, init);
      var before := FeedAll(max, e, init).editor;
      if IsEnd(c) {
        AtLineEnd(max, before, c);
        var replies := EndReplies(max, DraftOf(e), s);
        assert replies[..|replies| - 1] == EndReplies(max, DraftOf(e), init);
      } else {
        InsideLine(max, before, c);
        var replies := EndReplies(max, DraftOf(e), init);
        assert EndReplies(max, DraftOf(e), s) == replies + [] == replies;
      }
    }
  }

  // ----- When a damaged draft leads to a wrong execution -----

  /** At some line end a command is executed that the whole input does not execute there. */
  ghost predicate Cuts(kept: seq<seq<Output>>, whole: seq<seq<Output>>)
    requires |kept| == |whole|
  {
    exists i | 0 <= i < |kept| :: kept[i] != whole[i] && kept[i] != [] && kept[i][0].Execute?
  }

  /** The draft the service has, against the one the whole input would have left: latched, or undamaged. */
  predicate Harmless(kept: Draft, whole: Draft) {
    kept.overflow || kept == whole
  }

  ghost predicate CutsNext(max: nat, kept: Draft, whole: Draft, s: string) {
    SameEnds(max, kept, whole, s);
    Cuts(EndReplies(max, kept, s), EndReplies(max, whole, s))
  }

  lemma {:induction false} HarmlessNeverCuts(max: nat, kept: Draft, whole: Draft, s: string)
    requires Harmless(kept, whole)
    ensures Harmless(DraftAfter(max, kept, s), DraftAfter(max, whole, s)) && !CutsNext(max, kept, whole, s)
    decreases |s|
  {
    SameEnds(max, kept, whole, s);
    if s != "" {
      var init := s[..|s| - 1];
      HarmlessNeverCuts(max, kept, whole, init);
      SameEnds(max, kept, whole, init);
      var k, w := EndReplies(max, kept, s), EndReplies(max, whole, s);
      forall i | 0 <= i < |k|
        ensures k[i] == w[i] || k[i] == [] || !k[i][0].Execute?
      {
        if i < |EndReplies(max, kept, init)| {
          assert k[i] == EndReplies(max, kept, init)[i] && w[i] == EndReplies(max, whole, init)[i];
        }
      }
    }
  }

  lemma OneEndReply(max: nat, d: Draft)
    ensures EndReplies(max, d, [CR]) == [Reply(d)]
  {
    assert [CR][..0] == "" && EndReplies(max, d, "") == [];
  }

  lemma LetterThenEnd(max: nat, d: Draft)
    ensures EndReplies(max, d, ['A', CR]) == [Reply(Key(max, d, 'A'))]
  {
    assert ['A'][..0] == "" && ['A', CR][..1] == ['A'];
    assert IsPrintable('A') && !IsEnd('A');
    assert EndReplies(max, d, "") == [] && DraftAfter(max, d, "") == d;
    assert EndReplies(max, d, ['A']) == [] && DraftAfter(max, d, ['A']) == Key(max, d, 'A');
  }

  /** Whatever damaged the draft: some further input executes a cut command if and only if the draft is not harmless. */
  lemma DamageCutsIff(max: nat, kept: Draft, whole: Draft)
    requires max > 1
    ensures (exists s: string :: CutsNext(max, kept, whole, s)) <==> !Harmless(kept, whole)
  {
    if Harmless(kept, whole) {
      forall s: string
        ensures !CutsNext(max, kept, whole, s)
      {
        HarmlessNeverCuts(max, kept, whole, s);
      }
    } else if kept.line != "" {
      OneEndReply(max, kept);
      OneEndReply(max, whole);
      assert EndReplies(max, kept, [CR])[0] != EndReplies(max, whole, [CR])[0];
      assert CutsNext(max, kept, whole, [CR]);
    } else {
      var s := ['A', CR];
      LetterThenEnd(max, kept);
      LetterThenEnd(max, whole);
      TypedLetter(max, kept, whole);
      assert EndReplies(max, kept, s)[0] != EndReplies(max, whole, s)[0];
      assert CutsNext(max, kept, whole, s);
    }
  }

  lemma TypedLetter(max: nat, kept: Draft, whole: Draft)
    requires max > 1 && kept == NOTHING_TYPED && whole != kept
    ensures Reply(Key(max, kept, 'A')) == [Execute("A")] && Reply(Key(max, whole, 'A')) != [Execute("A")]
  {
    assert IsPrintable('A') && !IsErase('A');
    assert "" + ['A'] == "A" && |whole.line + ['A']| == |whole.line| + 1;
  }

  // ----- A loss and the reset that follows it -----

  /** The first line end, or the length. */
  function FirstEnd(s: string): (i: nat)
    ensures i <= |s| && NoEnd(s[..i]) && (i < |s| ==> IsEnd(s[i]))
  {
    if s == "" || IsEnd(s[0]) then 0
    else
      var rest := FirstEnd(s[1..]);
      assert s[..1 + rest] == [s[0]] + s[1..][..rest];
      1 + rest
  }

  /**
   * The reset drops the draft `d` while the rest of its line is still in the ring, and that rest is a command of
   * its own.
   */
  predicate TailRuns(max: nat, d: Draft, ring: string) {
    var i := FirstEnd(ring);
    var kept, whole := DraftAfter(max, NOTHING_TYPED, ring[..i]), DraftAfter(max, d, ring[..i]);
    i < |ring| && !kept.overflow && kept.line != "" && kept != whole
  }

  lemma {:induction false} NoEndNoReply(max: nat, d: Draft, s: string)
    requires NoEnd(s)
    ensures EndReplies(max, d, s) == []
    decreases |s|
  {
    if s != "" {
      assert !IsEnd(s[|s| - 1]);
      NoEndNoReply(max, d, s[..|s| - 1]);
    }
  }

  /** Up to its first line end a stretch makes one reply; from there on the old draft does not matter. */
  lemma FirstLineSplits(max: nat, d: Draft, s: string)
    requires FirstEnd(s) < |s|
    ensures var i := FirstEnd(s);
            EndReplies(max, d, s)
            == [Reply(DraftAfter(max, d, s[..i]))] + EndReplies(max, NOTHING_TYPED, s[i + 1..])
  {
    var i := FirstEnd(s);
    NoEndNoReply(max, d, s[..i]);
    assert s[..i + 1][..i] == s[..i] && s == s[..i + 1] + s[i + 1..];
    RepliesCompose(max, d, s[..i + 1], s[i + 1..]);
    assert EndReplies(max, d, s[..i + 1]) == [Reply(DraftAfter(max, d, s[..i]))];
  }

  lemma RingCutsIff(max: nat, d: Draft, ring: string)
    ensures CutsNext(max, NOTHING_TYPED, d, ring) <==> TailRuns(max, d, ring)
  {
    SameEnds(max, NOTHING_TYPED, d, ring);
    var i := FirstEnd(ring);
    if i == |ring| {
      assert ring[..i] == ring;
      NoEndNoReply(max, d, ring);
      NoEndNoReply(max, NOTHING_TYPED, ring);
    } else {
      FirstLineSplits(max, d, ring);
      FirstLineSplits(max, NOTHING_TYPED, ring);
      assert EndReplies(max, NOTHING_TYPED, ring)[0] == Reply(DraftAfter(max, NOTHING_TYPED, ring[..i]));
      assert EndReplies(max, d, ring)[0] == Reply(DraftAfter(max, d, ring[..i]));
    }
  }

  /**
   * `d` is the draft when a pass finds the overflow latch up, `ring` what the ring holds before the place of the
   * loss, `lost` what was dropped there, `later` what arrives afterwards.
   */
  ghost predicate LossCuts(max: nat, d: Draft, ring: string, lost: string, later: string) {
    || CutsNext(max, NOTHING_TYPED, d, ring)
    || CutsNext(max, DraftAfter(max, NOTHING_TYPED, ring), DraftAfter(max, d, ring + lost), later)
  }

  /** The guard, from what the editor, the ring and the dropped bytes hold at the reset. */
  predicate LossIsHarmless(max: nat, d: Draft, ring: string, lost: string) {
    && !TailRuns(max, d, ring)
    && Harmless(DraftAfter(max, NOTHING_TYPED, ring), DraftAfter(max, d, ring + lost))
  }

  /** Exactly when an overflow can lead to the execution of a cut line, for some input that follows. */
  lemma LossCutsIff(max: nat, d: Draft, ring: string, lost: string)
    requires max > 1
    ensures (exists later: string :: LossCuts(max, d, ring, lost, later)) <==> !LossIsHarmless(max, d, ring, lost)
  {
    var kept, whole := DraftAfter(max, NOTHING_TYPED, ring), DraftAfter(max, d, ring + lost);
    RingCutsIff(max, d, ring);
    DamageCutsIff(max, kept, whole);
    if TailRuns(max, d, ring) {
      assert LossCuts(max, d, ring, lost, "");
    } else if !Harmless(kept, whole) {
      var later: string :| CutsNext(max, kept, whole, later);
      assert LossCuts(max, d, ring, lost, later);
    }
  }

  /** The loss is harmless at a line boundary: nothing typed before it, and kept and dropped bytes both end a line. */
  lemma BoundaryLossIsHarmless(max: nat, ring: string, lost: string)
    requires ring != "" && IsEnd(ring[|ring| - 1]) && lost != "" && IsEnd(lost[|lost| - 1])
    ensures LossIsHarmless(max, NOTHING_TYPED, ring, lost)
  {
    assert (ring + lost)[|ring + lost| - 1] == lost[|lost| - 1];
  }

  /** A reset port with a ring, then more input: the outputs so far and the replies to ring and input. */
  lemma ResetOutputs(z: Sizes, p: Port, later: string)
    requires p.editor == RESET
    ensures Onward(z, Settled(z, p), later).outs
         == p.outs + Flat(EndReplies(z.line, NOTHING_TYPED, p.ring)
                          + EndReplies(z.line, DraftAfter(z.line, NOTHING_TYPED, p.ring), later))
  {
    OnwardFeeds(z, p, later);
    EditorReplies(z.line, RESET, p.ring + later);
    RepliesCompose(z.line, NOTHING_TYPED, p.ring, later);
  }

  lemma OnwardFeeds(z: Sizes, p: Port, later: string)
    ensures Onward(z, Settled(z, p), later).outs == p.outs + FeedAll(z.line, p.editor, p.ring + later).outs
  {
    OnwardComposes(z, Result(p.editor, p.outs), p.ring, later);
  }

  lemma WholeOutputs(max: nat, e: Editor, ring: string, lost: string, later: string)
    requires e.ignoreLf ==> AtRest(e)
    ensures FeedAll(max, e, ring + lost + later).outs
         == Flat(EndReplies(max, DraftOf(e), ring) + EndReplies(max, DraftAfter(max, DraftOf(e), ring), lost)
                 + EndReplies(max, DraftAfter(max, DraftOf(e), ring + lost), later))
  {
    EditorReplies(max, e, ring + lost + later);
    RepliesCompose(max, DraftOf(e), ring + lost, later);
    RepliesCompose(max, DraftOf(e), ring, lost);
  }

  /**
   * The replies those predicates speak of are the outputs of the port: first what the service does with a loss,
   * then what it would do with the whole input.
   */
  lemma LossOutputs(z: Sizes, p: Port, data: string, later: string)
    requires Fits(z, p) && !p.latch && |data| > z.ring - |p.ring| && (p.editor.ignoreLf ==> AtRest(p.editor))
    ensures var n := z.ring - |p.ring|;
            var ring, lost, d := p.ring + data[..n], data[n..], DraftOf(p.editor);
            && Onward(z, Settled(z, CheckLatch(Receive(z, p, data))), later).outs
               == p.outs + [OverflowReport]
                  + Flat(EndReplies(z.line, NOTHING_TYPED, ring)
                         + EndReplies(z.line, DraftAfter(z.line, NOTHING_TYPED, ring), later))
            && FeedAll(z.line, p.editor, ring + lost + later).outs
               == Flat(EndReplies(z.line, d, ring) + EndReplies(z.line, DraftAfter(z.line, d, ring), lost)
                       + EndReplies(z.line, DraftAfter(z.line, d, ring + lost), later))
  {
    var n := z.ring - |p.ring|;
    ResetOutputs(z, CheckLatch(Receive(z, p, data)), later);
    WholeOutputs(z.line, p.editor, p.ring + data[..n], data[n..], later);
  }

  // ----- A cut line that is executed, for every ring -----

  /** `n` carriage returns. */
  function Returns(n: nat): string {
    if n == 0 then "" else Returns(n - 1) + [CR]
  }

  lemma {:induction false} ReturnsAreSilent(z: Sizes, n: nat)
    ensures |Returns(n)| == n
    ensures var r := FeedAll(z.line, RESET, Returns(n));
            r.outs == [] && r.editor.line == "" && !r.editor.overflow
  {
    if n != 0 {
      ReturnsAreSilent(z, n - 1);
      assert Returns(n)[..n - 1] == Returns(n - 1);
    }
  }

  lemma OneCharacter(z: Sizes, e: Editor, c: char)
    ensures FeedAll(z.line, e, [c]) == Feed(z.line, e, c)
  {
    assert [c][..0] == "";
    assert FeedAll(z.line, e, "") == Result(e, []);
    assert [] + Feed(z.line, e, c).outs == Feed(z.line, e, c).outs;
  }

  /** The port after "AT" has met a ring with one free place. */
  function Truncated(z: Sizes): Port
    requires z.ring > 0
  {
    ReturnsAreSilent(z, z.ring - 1);
    Receive(z, Receive(z, EMPTY, Returns(z.ring - 1) + "A"), "T")
  }

  lemma TruncatedHolds(z: Sizes)
    requires z.ring > 0
    ensures Truncated(z) == Port(Returns(z.ring - 1) + "A", true, RESET, [], 1)
  {
    ReturnsAreSilent(z, z.ring - 1);
    var fill := Returns(z.ring - 1) + "A";
    assert fill[..z.ring] == fill && "" + fill == fill && fill + "T"[..0] == fill;
  }

  lemma TypeLetter(z: Sizes, e: Editor)
    requires z.line > 1 && e.line == "" && !e.overflow
    ensures Feed(z.line, e, 'A') == Result(Editor("A", false, false), [])
  {
    assert !IsErase('A') && !IsEnd('A') && IsPrintable('A');
    assert e.line + ['A'] == "A";
  }

  lemma FillThenLetter(z: Sizes, n: nat)
    requires z.line > 1
    ensures FeedAll(z.line, RESET, Returns(n) + "A") == Result(Editor("A", false, false), [])
  {
    ReturnsAreSilent(z, n);
    var before := FeedAll(z.line, RESET, Returns(n));
    ChunksCompose(z.line, RESET, Returns(n), "A");
    OneCharacter(z, before.editor, 'A');
    TypeLetter(z, before.editor);
    assert before.outs + [] == [];
  }

  /** A reset editor over a ring that still holds the cut line. */
  lemma CutLineSettles(z: Sizes, n: nat, p: Port)
    requires z.line > 1 && p == Port(Returns(n) + "A", false, RESET, [OverflowReport], 0)
    ensures Settled(z, p) == Result(Editor("A", false, false), [OverflowReport])
  {
    FillThenLetter(z, n);
    assert [OverflowReport] + [] == [OverflowReport];
  }

  lemma CutLineExecutes(z: Sizes)
    ensures Onward(z, Result(Editor("A", false, false), [OverflowReport]), [CR]).outs == [OverflowReport, Execute("A")]
  {
    OneCharacter(z, Editor("A", false, false), CR);
    assert [OverflowReport] + [Execute("A")] == [OverflowReport, Execute("A")];
  }

  /**
   * The reset after a loss empties the editor but not the ring: for every ring, "AT" can lose its second
   * letter, and the cut line is still executed once its end arrives.
   */
  lemma TruncatedLineExecutes(z: Sizes)
    requires z.ring > 0 && z.line > 1
    ensures Truncated(z).dropped == 1
    ensures Onward(z, Settled(z, CheckLatch(Truncated(z))), [CR]).outs == [OverflowReport, Execute("A")]
  {
    TruncatedHolds(z);
    assert [] + [OverflowReport] == [OverflowReport];
    CutLineSettles(z, z.ring - 1, CheckLatch(Truncated(z)));
    CutLineExecutes(z);
  }
}
