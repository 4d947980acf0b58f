/** The receive path of the AT service: a bounded ring filled at interrupt level, an overflow latch, a reader thread. */
module AtInput {
  import opened AtLine
  import opened Bytes

  const CHUNK := 64

  datatype Sizes = Sizes(ring: nat, line: nat)

  /** `dropped` counts the bytes lost since the last overflow report. */
  datatype Port = Port(ring: string, latch: bool, editor: Editor, outs: seq<Output>, dropped: nat)

  const EMPTY := Port("", false, RESET, [], 0)

  predicate Fits(z: Sizes, p: Port) {
    |p.ring| <= z.ring
  }

  /** Takes what fits. */
  function Receive(z: Sizes, p: Port, data: string): Port
    requires Fits(z, p)
  {
    var n := Min(|data|, z.ring - |p.ring|);
    p.(ring := p.ring + data[..n], latch := p.latch || n != |data|, dropped := p.dropped + (|data| - n))
  }

  /** The start of a processing pass: a loss resets the editor and is reported. */
  function CheckLatch(p: Port): Port {
    if p.latch then p.(latch := false, editor := RESET, outs := p.outs + [OverflowReport], dropped := 0) else p
  }

  /** One transfer out of the ring. */
  function Transfer(z: Sizes, p: Port): Port {
    var k := Min(CHUNK, |p.ring|);
    var r := FeedAll(z.line, p.editor, p.ring[..k]);
    p.(ring := p.ring[k..], editor := r.editor, outs := p.outs + r.outs)
  }

  datatype Step = Arrive(data: string) | StartPass | Move

  function Next(z: Sizes, p: Port, step: Step): (p': Port)
    requires Fits(z, p)
    ensures Fits(z, p')
  {
    match step
    case Arrive(data) => Receive(z, p, data)
    case StartPass => CheckLatch(p)
    case Move => Transfer(z, p)
  }

  function After(z: Sizes, p: Port, steps: seq<Step>): Port
    requires Fits(z, p)
    decreases |steps|
  {
    if steps == [] then p else After(z, Next(z, p, steps[0]), steps[1..])
  }

  /** All bytes handed to the service, in order. */
  function Received(steps: seq<Step>): string {
    if steps == [] then "" else (if steps[0].Arrive? then steps[0].data else "") + Received(steps[1..])
  }

  /** No arrival in the run finds the ring too full. */
  predicate NoLoss(z: Sizes, p: Port, steps: seq<Step>)
    requires Fits(z, p)
    decreases |steps|
  {
    steps != [] ==>
      && (steps[0].Arrive? ==> |p.ring| + |steps[0].data| <= z.ring)
      && NoLoss(z, Next(z, p, steps[0]), steps[1..])
  }

  /** What the port will have done once the bytes in the ring are fed. */
  function Settled(z: Sizes, p: Port): Result {
    var r := FeedAll(z.line, p.editor, p.ring);
    Result(r.editor, p.outs + r.outs)
  }

  /** What a settled port becomes when more bytes follow. */
  function Onward(z: Sizes, r: Result, s: string): Result {
    var t := FeedAll(z.line, r.editor, s);
    Result(t.editor, r.outs + t.outs)
  }

  lemma OnwardComposes(z: Sizes, r: Result, a: string, b: string)
    ensures Onward(z, Onward(z, r, a), b) == Onward(z, r, a + b)
  {
    ChunksCompose(z.line, r.editor, a, b);
  }

  lemma ArriveSettles(z: Sizes, p: Port, data: string)
    requires |p.ring| + |data| <= z.ring
    ensures Settled(z, Receive(z, p, data)) == Onward(z, Settled(z, p), data)
  {
    assert data[..|data|] == data;
    ChunksCompose(z.line, p.editor, p.ring, data);
    var first := FeedAll(z.line, p.editor, p.ring);
    var second := FeedAll(z.line, first.editor, data);
    assert (p.outs + first.outs) + second.outs == p.outs + (first.outs + second.outs);
  }

  lemma MoveSettles(z: Sizes, p: Port)
    ensures Settled(z, Transfer(z, p)) == Settled(z, p)
  {
    var k := Min(CHUNK, |p.ring|);
    var head, tail := p.ring[..k], p.ring[k..];
    assert p.ring == head + tail;
    ChunksCompose(z.line, p.editor, head, tail);
    var first := FeedAll(z.line, p.editor, head);
    var second := FeedAll(z.line, first.editor, tail);
    assert (p.outs + first.outs) + second.outs == p.outs + (first.outs + second.outs);
  }

  /** Under any interleaving of arrivals and transfers without a loss, only the concatenation of the bytes matters. */
  lemma {:induction false} RunDependsOnBytes(z: Sizes, p: Port, steps: seq<Step>)
    requires Fits(z, p) && !p.latch && NoLoss(z, p, steps)
    ensures !After(z, p, steps).latch
    ensures Settled(z, After(z, p, steps)) == Onward(z, Settled(z, p), Received(steps))
    decreases |steps|
  {
    if steps == [] {
      assert FeedAll(z.line, Settled(z, p).editor, "") == Result(Settled(z, p).editor, []);
    } else {
      var p' := Next(z, p, steps[0]);
      RunDependsOnBytes(z, p', steps[1..]);
      match steps[0]
      case Arrive(data) =>
        ArriveSettles(z, p, data);
        OnwardComposes(z, Settled(z, p), data, Received(steps[1..]));
      case StartPass =>
        assert "" + Received(steps[1..]) == Received(steps[1..]);
      case Move =>
        MoveSettles(z, p);
        assert "" + Received(steps[1..]) == Received(steps[1..]);
    }
  }

  lemma DrainedIsSettled(z: Sizes, p: Port)
    requires p.ring == ""
    ensures Settled(z, p) == Result(p.editor, p.outs)
  {
    assert p.outs + [] == p.outs;
  }

  lemma FromBoot(z: Sizes, s: string)
    ensures Onward(z, Result(RESET, []), s) == FeedAll(z.line, RESET, s)
  {
    assert [] + FeedAll(z.line, RESET, s).outs == FeedAll(z.line, RESET, s).outs;
  }

  /** From boot, with the ring drained: the outputs are those of the whole stream, replied to segment by segment. */
  lemma DrainedRunReplies(z: Sizes, steps: seq<Step>)
    requires z.line > 0 && NoLoss(z, EMPTY, steps) && After(z, EMPTY, steps).ring == ""
    ensures var p, segs := After(z, EMPTY, steps), Segments(Received(steps));
            && p.outs == Replies(z.line, segs[..|segs| - 1])
            && Draft(p.editor.line, p.editor.overflow) == Typed(z.line, segs[|segs| - 1])
  {
    RunDependsOnBytes(z, EMPTY, steps);
    DrainedIsSettled(z, EMPTY);
    DrainedIsSettled(z, After(z, EMPTY, steps));
    FromBoot(z, Received(steps));
    EditorRefinesSegments(z.line, Received(steps));
  }

  /** A loss is never silent: bytes are missing exactly while the latch is up, and the next pass reports them. */
  lemma {:induction false} LossIsReported(z: Sizes, p: Port, steps: seq<Step>)
    requires Fits(z, p) && (p.latch <==> p.dropped > 0)
    ensures var e := After(z, p, steps);
            && (e.latch <==> e.dropped > 0)
            && (e.dropped > 0 ==>
                  Settled(z, CheckLatch(e)) == Onward(z, Result(RESET, e.outs + [OverflowReport]), e.ring))
    decreases |steps|
  {
    if steps != [] {
      LossIsReported(z, Next(z, p, steps[0]), steps[1..]);
    }
  }
}
