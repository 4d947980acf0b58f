/**
 * Runs of the receive path with any number of losses: the place of every dropped byte is remembered, so that what
 * the service executes can be compared with what the whole input would have executed.
 */
module AtWatch {
  import opened Bytes
  import opened AtLine
  import opened AtInput
  import opened AtLoss

  /** What the ring holds, and where something was dropped. */
  datatype Item = Kept(c: char) | Lost(text: string)

  /** What the editor meets: a byte, the place of a loss, or the reset of a pass that finds the latch up. */
  datatype Happening = Fed(c: char) | Missed(text: string) | Reset

  datatype Watched = Watched(port: Port, items: seq<Item>, trace: seq<Happening>)

  const NOTHING_SEEN := Watched(EMPTY, [], [])

  function InRing(item: Item): string {
    if item.Kept? then [item.c] else ""
  }

  function AsSent(item: Item): string {
    if item.Kept? then [item.c] else item.text
  }

  function Erase(items: seq<Item>): string {
    if items == [] then "" else Erase(items[..|items| - 1]) + InRing(items[|items| - 1])
  }

  /** With the dropped bytes put back. */
  function Restore(items: seq<Item>): string {
    if items == [] then "" else Restore(items[..|items| - 1]) + AsSent(items[|items| - 1])
  }

  lemma OneItemMore(items: seq<Item>, item: Item)
    ensures Erase(items + [item]) == Erase(items) + InRing(item)
    ensures Restore(items + [item]) == Restore(items) + AsSent(item)
  {
    assert (items + [item])[..|items|] == items;
  }

  lemma {:induction false} ItemsCompose(a: seq<Item>, b: seq<Item>)
    ensures Erase(a + b) == Erase(a) + Erase(b) && Restore(a + b) == Restore(a) + Restore(b)
  {
    if b == [] {
      assert a + b == a;
    } else {
      var init, last := b[..|b| - 1], b[|b| - 1];
      assert a + b == (a + init) + [last];
      ItemsCompose(a, init);
      OneItemMore(a + init, last);
      Associates(Erase(a), Erase(init), InRing(last));
      Associates(Restore(a), Restore(init), AsSent(last));
    }
  }

  function Items(s: string): (items: seq<Item>)
    ensures |items| == |s|
  {
    seq(|s|, i requires 0 <= i < |s| => Kept(s[i]))
  }

  lemma {:induction false} ItemsErase(s: string)
    ensures Erase(Items(s)) == s && Restore(Items(s)) == s
  {
    if s != "" {
      assert Items(s)[..|s| - 1] == Items(s[..|s| - 1]);
      ItemsErase(s[..|s| - 1]);
    }
  }

  lemma Halves(items: seq<Item>, head: seq<Item>, tail: seq<Item>)
    requires items == head + tail
    ensures Erase(items) == Erase(head) + Erase(tail) && Restore(items) == Restore(head) + Restore(tail)
  {
    ItemsCompose(head, tail);
  }

  lemma FirstItem(items: seq<Item>, n: nat)
    requires n < |items|
    ensures |Erase(items[..1 + n])| == |InRing(items[0])| + |Erase(items[1..][..n])|
  {
    assert [] + [items[0]] == [items[0]];
    OneItemMore([], items[0]);
    assert items[..1 + n] == [items[0]] + items[1..][..n];
    Halves(items[..1 + n], [items[0]], items[1..][..n]);
  }

  /** The items that make up the first `k` bytes of the ring; a loss behind the last of them is met later. */
  function CountFor(items: seq<Item>, k: nat): (n: nat)
    requires k <= |Erase(items)|
    ensures n <= |items| && |Erase(items[..n])| == k
  {
    if k == 0 then 0
    else
      FirstItem(items, |items| - 1);
      assert items[..1 + (|items| - 1)] == items && items[1..][..|items| - 1] == items[1..];
      var rest := CountFor(items[1..], if items[0].Kept? then k - 1 else k);
      FirstItem(items, rest);
      1 + rest
  }

  function Met(item: Item): Happening {
    if item.Kept? then Fed(item.c) else Missed(item.text)
  }

  function AllMet(items: seq<Item>): seq<Happening> {
    seq(|items|, i requires 0 <= i < |items| => Met(items[i]))
  }

  predicate Tracked(z: Sizes, w: Watched) {
    Fits(z, w.port) && Erase(w.items) == w.port.ring
  }

  function Drop(text: string): seq<Item> {
    if text == "" then [] else [Lost(text)]
  }

  function SeeArrival(z: Sizes, w: Watched, data: string): Watched
    requires Fits(z, w.port)
  {
    var n := Min(|data|, z.ring - |w.port.ring|);
    Watched(Receive(z, w.port, data), w.items + Items(data[..n]) + Drop(data[n..]), w.trace)
  }

  function SeePass(w: Watched): Watched {
    Watched(CheckLatch(w.port), w.items, if w.port.latch then w.trace + [Reset] else w.trace)
  }

  function SeeTransfer(z: Sizes, w: Watched): Watched
    requires Tracked(z, w)
  {
    var n := CountFor(w.items, Min(CHUNK, |w.port.ring|));
    Watched(Transfer(z, w.port), w.items[n..], w.trace + AllMet(w.items[..n]))
  }

  function Seen(z: Sizes, w: Watched, step: Step): Watched
    requires Tracked(z, w)
  {
    match step
    case Arrive(data) => SeeArrival(z, w, data)
    case StartPass => SeePass(w)
    case Move => SeeTransfer(z, w)
  }

  lemma DropErases(text: string)
    ensures Erase(Drop(text)) == "" && Restore(Drop(text)) == text
  {
    if text != "" {
      assert [Lost(text)][..0] == [];
      assert Erase([]) == "" && Restore([]) == "" && "" + text == text;
    }
  }

  lemma ThreePieces(a: seq<Item>, b: seq<Item>, c: seq<Item>)
    ensures Erase(a + b + c) == Erase(a) + Erase(b) + Erase(c)
    ensures Restore(a + b + c) == Restore(a) + Restore(b) + Restore(c)
  {
    ItemsCompose(a, b);
    ItemsCompose(a + b, c);
  }

  lemma Rejoin(s: string, data: string, n: nat)
    requires n <= |data|
    ensures s + data[..n] + "" == s + data[..n] && s + data[..n] + data[n..] == s + data
  {
  }

  lemma ArrivalErases(items: seq<Item>, data: string, n: nat)
    requires n <= |data|
    ensures var e := items + Items(data[..n]) + Drop(data[n..]);
            Erase(e) == Erase(items) + data[..n] && Restore(e) == Restore(items) + data
  {
    var head, tail := Items(data[..n]), Drop(data[n..]);
    ItemsErase(data[..n]);
    DropErases(data[n..]);
    ThreePieces(items, head, tail);
    Rejoin(Erase(items), data, n);
    Rejoin(Restore(items), data, n);
  }

  lemma ArrivalTracks(z: Sizes, w: Watched, data: string)
    requires Tracked(z, w)
    ensures Tracked(z, SeeArrival(z, w, data))
    ensures Restore(SeeArrival(z, w, data).items) == Restore(w.items) + data
  {
    ArrivalErases(w.items, data, Min(|data|, z.ring - |w.port.ring|));
  }

  lemma TransferTracks(z: Sizes, w: Watched)
    requires Tracked(z, w)
    ensures Tracked(z, SeeTransfer(z, w))
  {
    MoveErases(w.items, Min(CHUNK, |w.port.ring|));
  }

  lemma SeenTracks(z: Sizes, w: Watched, step: Step)
    requires Tracked(z, w)
    ensures Tracked(z, Seen(z, w, step))
  {
    match step
    case Arrive(data) => ArrivalTracks(z, w, data);
    case StartPass =>
    case Move => TransferTracks(z, w);
  }

  lemma CutAndJoin(items: seq<Item>, n: nat)
    requires n <= |items|
    ensures items == items[..n] + items[n..]
  {
  }

  lemma Rejoined(items: seq<Item>, n: nat)
    requires n <= |items|
    ensures Restore(items[..n]) + Restore(items[n..]) == Restore(items)
    ensures Erase(items[..n]) + Erase(items[n..]) == Erase(items)
  {
    CutAndJoin(items, n);
    Halves(items, items[..n], items[n..]);
  }

  lemma MoveErases(items: seq<Item>, k: nat)
    requires k <= |Erase(items)|
    ensures var n := CountFor(items, k);
            Erase(items[..n]) == Erase(items)[..k] && Erase(items[n..]) == Erase(items)[k..]
  {
    Rejoined(items, CountFor(items, k));
  }

  function Watch(z: Sizes, w: Watched, steps: seq<Step>): Watched
    requires Tracked(z, w)
    decreases |steps|
  {
    if steps == [] then w
    else
      SeenTracks(z, w, steps[0]);
      Watch(z, Seen(z, w, steps[0]), steps[1..])
  }

  // ----- Two drafts: the one the service has, and the one of the whole input -----

  datatype Pair = Pair(kept: Draft, whole: Draft)

  const BOTH_EMPTY := Pair(NOTHING_TYPED, NOTHING_TYPED)

  function Typing(max: nat, d: Draft, c: char): Draft {
    if IsEnd(c) then NOTHING_TYPED else Key(max, d, c)
  }

  function OnePair(max: nat, before: Pair, h: Happening): Pair {
    match h
    case Fed(c) => Pair(Typing(max, before.kept, c), Typing(max, before.whole, c))
    case Missed(text) => before.(whole := DraftAfter(max, before.whole, text))
    case Reset => before.(kept := NOTHING_TYPED)
  }

  function PairAfter(max: nat, trace: seq<Happening>): Pair {
    if trace == [] then BOTH_EMPTY
    else OnePair(max, PairAfter(max, trace[..|trace| - 1]), trace[|trace| - 1])
  }

  function OneOutput(before: Pair, h: Happening): seq<Output> {
    match h
    case Fed(c) => if IsEnd(c) then Reply(before.kept) else []
    case Missed(_) => []
    case Reset => [OverflowReport]
  }

  /** What the service has put out. */
  function KeptOutputs(max: nat, trace: seq<Happening>): seq<Output> {
    if trace == [] then []
    else
      var init := trace[..|trace| - 1];
      KeptOutputs(max, init) + OneOutput(PairAfter(max, init), trace[|trace| - 1])
  }

  function OneText(h: Happening): string {
    match h
    case Fed(c) => [c]
    case Missed(text) => text
    case Reset => ""
  }

  /** All the input that the trace covers. */
  function WholeText(trace: seq<Happening>): string {
    if trace == [] then "" else WholeText(trace[..|trace| - 1]) + OneText(trace[|trace| - 1])
  }

  /** At some line end the service executes a command that the whole input does not execute there. */
  ghost predicate TraceCuts(max: nat, trace: seq<Happening>) {
    trace != [] &&
      var init, last := trace[..|trace| - 1], trace[|trace| - 1];
      TraceCuts(max, init) || CutAt(PairAfter(max, init), last)
  }

  predicate CutAt(d: Pair, h: Happening) {
    h.Fed? && IsEnd(h.c) && Reply(d.kept) != Reply(d.whole) && Reply(d.kept) != [] && Reply(d.kept)[0].Execute?
  }

  // ----- The trace tells what the port does -----

  lemma MetOneMore(trace: seq<Happening>, items: seq<Item>)
    requires items != []
    ensures var n := |items| - 1;
            trace + AllMet(items) == (trace + AllMet(items[..n])) + [Met(items[n])]
  {
  }

  lemma OneMore(max: nat, trace: seq<Happening>, h: Happening)
    ensures PairAfter(max, trace + [h]) == OnePair(max, PairAfter(max, trace), h)
    ensures KeptOutputs(max, trace + [h]) == KeptOutputs(max, trace) + OneOutput(PairAfter(max, trace), h)
    ensures WholeText(trace + [h]) == WholeText(trace) + OneText(h)
    ensures TraceCuts(max, trace + [h]) <==> TraceCuts(max, trace) || CutAt(PairAfter(max, trace), h)
  {
    assert (trace + [h])[..|trace|] == trace;
  }

  lemma {:induction false} MetExtends(max: nat, trace: seq<Happening>, items: seq<Item>)
    ensures var d, t := PairAfter(max, trace).kept, trace + AllMet(items);
            && KeptOutputs(max, t) == KeptOutputs(max, trace) + Flat(EndReplies(max, d, Erase(items)))
            && PairAfter(max, t).kept == DraftAfter(max, d, Erase(items))
  {
    if items == [] {
      assert trace + AllMet(items) == trace;
    } else {
      var init, last := items[..|items| - 1], items[|items| - 1];
      MetExtends(max, trace, init);
      MetOneMore(trace, items);
      OneMore(max, trace + AllMet(init), Met(last));
      MetExtendsOne(max, PairAfter(max, trace).kept, Erase(init), last, KeptOutputs(max, trace));
    }
  }

  /** What one more item adds to the outputs and to the draft. */
  lemma MetExtendsOne(max: nat, d: Draft, s: string, item: Item, outs: seq<Output>)
    ensures var before, t := DraftAfter(max, d, s), s + InRing(item);
            && (outs + Flat(EndReplies(max, d, s))) + OneOutput(Pair(before, before), Met(item))
               == outs + Flat(EndReplies(max, d, t))
            && DraftAfter(max, d, t) == if item.Kept? then Typing(max, before, item.c) else before
  {
    var replies := Flat(EndReplies(max, d, s));
    if item.Kept? {
      KeptExtends(max, d, s, item.c);
      OutputsAssociate(outs, replies, if IsEnd(item.c) then Reply(DraftAfter(max, d, s)) else []);
    } else {
      assert s + "" == s;
      OutputsAssociate(outs, replies, []);
    }
  }

  lemma OutputsAssociate(a: seq<Output>, b: seq<Output>, c: seq<Output>)
    ensures (a + b) + c == a + (b + c) && b + [] == b
  {
  }

  lemma {:induction false} MetRestores(trace: seq<Happening>, items: seq<Item>)
    ensures WholeText(trace + AllMet(items)) == WholeText(trace) + Restore(items)
  {
    if items == [] {
      assert trace + AllMet(items) == trace;
    } else {
      var init := items[..|items| - 1];
      MetRestores(trace, init);
      MetOneMore(trace, items);
      OneMore(0, trace + AllMet(init), Met(items[|items| - 1]));
      Associates(WholeText(trace), Restore(init), OneText(Met(items[|items| - 1])));
    }
  }

  lemma KeptExtends(max: nat, d: Draft, s: string, c: char)
    ensures DraftAfter(max, d, s + [c]) == Typing(max, DraftAfter(max, d, s), c)
    ensures Flat(EndReplies(max, d, s + [c]))
         == Flat(EndReplies(max, d, s)) + if IsEnd(c) then Reply(DraftAfter(max, d, s)) else []
  {
    assert (s + [c])[..|s|] == s;
    var before := EndReplies(max, d, s);
    if IsEnd(c) {
      var reply := Reply(DraftAfter(max, d, s));
      assert (before + [reply])[..|before|] == before;
    } else {
      assert before + [] == before;
    }
  }

  /** The port and its trace agree. */
  ghost predicate Faithful(z: Sizes, w: Watched) {
    && Tracked(z, w)
    && w.port.outs == KeptOutputs(z.line, w.trace) && DraftOf(w.port.editor) == PairAfter(z.line, w.trace).kept
    && (w.port.editor.ignoreLf ==> AtRest(w.port.editor))
  }

  /** Everything received so far: met by the editor, or in the ring with the dropped bytes put back. */
  function Total(w: Watched): string {
    WholeText(w.trace) + Restore(w.items)
  }

  function ArrivedIn(step: Step): string {
    if step.Arrive? then step.data else ""
  }

  lemma MoveAccounts(w: Watched, n: nat)
    requires n <= |w.items|
    ensures WholeText(w.trace + AllMet(w.items[..n])) + Restore(w.items[n..]) == Total(w)
  {
    MetRestores(w.trace, w.items[..n]);
    Rejoined(w.items, n);
    Associates(WholeText(w.trace), Restore(w.items[..n]), Restore(w.items[n..]));
  }

  lemma ResetAccounts(trace: seq<Happening>)
    ensures WholeText(trace + [Reset]) == WholeText(trace)
  {
    OneMore(0, trace, Reset);
    assert WholeText(trace) + "" == WholeText(trace);
  }

  lemma SeeArrivalFaithful(z: Sizes, w: Watched, data: string)
    requires Faithful(z, w)
    ensures var e := SeeArrival(z, w, data);
            Faithful(z, e) && Total(e) == Total(w) + data
  {
    ArrivalTracks(z, w, data);
    Associates(WholeText(w.trace), Restore(w.items), data);
  }

  lemma SeePassFaithful(z: Sizes, w: Watched)
    requires Faithful(z, w)
    ensures Faithful(z, SeePass(w)) && Total(SeePass(w)) == Total(w)
  {
    OneMore(z.line, w.trace, Reset);
    ResetAccounts(w.trace);
  }

  lemma SeeTransferFaithful(z: Sizes, w: Watched)
    requires Faithful(z, w)
    ensures Faithful(z, SeeTransfer(z, w)) && Total(SeeTransfer(z, w)) == Total(w)
  {
    var k := Min(CHUNK, |w.port.ring|);
    var n := CountFor(w.items, k);
    TransferTracks(z, w);
    MoveErases(w.items, k);
    MetExtends(z.line, w.trace, w.items[..n]);
    EditorReplies(z.line, w.port.editor, w.port.ring[..k]);
    MoveAccounts(w, n);
  }

  lemma OneStepWatched(z: Sizes, w: Watched, step: Step)
    requires Faithful(z, w)
    ensures var e := Seen(z, w, step);
            && Faithful(z, e) && e.port == Next(z, w.port, step) && Total(e) == Total(w) + ArrivedIn(step)
  {
    assert Total(w) + "" == Total(w);
    match step
    case Arrive(data) => SeeArrivalFaithful(z, w, data);
    case StartPass => SeePassFaithful(z, w);
    case Move => SeeTransferFaithful(z, w);
  }

  lemma Associates(a: string, b: string, c: string)
    ensures (a + b) + c == a + (b + c)
  {
  }

  /** Over every run the trace covers exactly the bytes received, and its outputs are those of the port. */
  lemma {:induction false} WatchedRun(z: Sizes, w: Watched, steps: seq<Step>)
    requires Faithful(z, w)
    ensures var e := Watch(z, w, steps);
            && Faithful(z, e) && e.port == After(z, w.port, steps) && Total(e) == Total(w) + Received(steps)
    decreases |steps|
  {
    if steps == [] {
      assert Total(w) + "" == Total(w);
    } else {
      var next := Seen(z, w, steps[0]);
      OneStepWatched(z, w, steps[0]);
      WatchedRun(z, next, steps[1..]);
      Associates(Total(w), ArrivedIn(steps[0]), Received(steps[1..]));
    }
  }

  // ----- When a run executes a cut line -----

  lemma {:induction false} WholeDraft(max: nat, trace: seq<Happening>)
    ensures PairAfter(max, trace).whole == DraftAfter(max, NOTHING_TYPED, WholeText(trace))
  {
    if trace != [] {
      var init := trace[..|trace| - 1];
      WholeDraft(max, init);
      match trace[|trace| - 1]
      case Fed(c) => KeptExtends(max, NOTHING_TYPED, WholeText(init), c);
      case Missed(text) => RepliesCompose(max, NOTHING_TYPED, WholeText(init), text);
      case Reset => assert WholeText(init) + "" == WholeText(init);
    }
  }

  /** The bytes fed next. */
  function Further(s: string): seq<Happening> {
    AllMet(Items(s))
  }

  lemma {:induction false} FurtherCuts(max: nat, trace: seq<Happening>, s: string)
    ensures var d, t := PairAfter(max, trace), trace + Further(s);
            && PairAfter(max, t) == Pair(DraftAfter(max, d.kept, s), DraftAfter(max, d.whole, s))
            && (TraceCuts(max, t) <==> TraceCuts(max, trace) || CutsNext(max, d.kept, d.whole, s))
    decreases |s|
  {
    var d, t := PairAfter(max, trace), trace + Further(s);
    SameEnds(max, d.kept, d.whole, s);
    if s == "" {
      assert t == trace;
    } else {
      var init, c := s[..|s| - 1], s[|s| - 1];
      assert t == (trace + Further(init)) + [Fed(c)];
      OneMore(max, trace + Further(init), Fed(c));
      FurtherCuts(max, trace, init);
      SameEnds(max, d.kept, d.whole, init);
      CutsOneMore(EndReplies(max, d.kept, init), EndReplies(max, d.whole, init),
                  Reply(DraftAfter(max, d.kept, init)), Reply(DraftAfter(max, d.whole, init)));
    }
  }

  lemma CutsOneMore(kept: seq<seq<Output>>, whole: seq<seq<Output>>, k: seq<Output>, w: seq<Output>)
    requires |kept| == |whole|
    ensures Cuts(kept + [k], whole + [w]) <==> Cuts(kept, whole) || (k != w && k != [] && k[0].Execute?)
    ensures Cuts(kept + [], whole + []) <==> Cuts(kept, whole)
  {
    assert kept + [] == kept && whole + [] == whole;
    assert (kept + [k])[|kept|] == k && (whole + [w])[|kept|] == w;
    forall i | 0 <= i < |kept|
      ensures (kept + [k])[i] == kept[i] && (whole + [w])[i] == whole[i]
    {
    }
  }

  /** Some bytes, fed next, make the trace one that executes a cut line. */
  ghost predicate CanCut(max: nat, trace: seq<Happening>) {
    exists later: string :: TraceCuts(max, trace + Further(later))
  }

  predicate IsHarmless(max: nat, trace: seq<Happening>) {
    Harmless(PairAfter(max, trace).kept, PairAfter(max, trace).whole)
  }

  lemma TraceCutsIff(max: nat, trace: seq<Happening>)
    requires max > 1
    ensures CanCut(max, trace) <==> TraceCuts(max, trace) || !IsHarmless(max, trace)
  {
    var d := PairAfter(max, trace);
    DamageCutsIff(max, d.kept, d.whole);
    forall s: string
      ensures TraceCuts(max, trace + Further(s)) <==> TraceCuts(max, trace) || CutsNext(max, d.kept, d.whole, s)
    {
      FurtherCuts(max, trace, s);
    }
    assert TraceCuts(max, trace + Further("")) <==> TraceCuts(max, trace) || CutsNext(max, d.kept, d.whole, "");
  }

  lemma NothingSeen(z: Sizes)
    ensures Faithful(z, NOTHING_SEEN) && Total(NOTHING_SEEN) == ""
  {
    assert Erase([]) == "" && Restore([]) == "" && WholeText([]) == "";
    assert KeptOutputs(z.line, []) == [];
  }

  /** From boot the trace accounts for the run: for its outputs, its draft and every byte received. */
  lemma RunIsWatched(z: Sizes, steps: seq<Step>)
    ensures Tracked(z, NOTHING_SEEN)
    ensures var w := Watch(z, NOTHING_SEEN, steps);
            && w.port == After(z, EMPTY, steps) && w.port.outs == KeptOutputs(z.line, w.trace)
            && DraftOf(w.port.editor) == PairAfter(z.line, w.trace).kept
            && Faithful(z, w) && Total(w) == Received(steps)
  {
    NothingSeen(z);
    WatchedRun(z, NOTHING_SEEN, steps);
    assert "" + Received(steps) == Received(steps);
  }

  // ----- The bytes the service feeds next -----

  /** The trace once the editor has met what it has not met yet: the bytes in the ring, and the losses among them. */
  function Ahead(w: Watched): seq<Happening> {
    w.trace + AllMet(w.items)
  }

  /** Nothing more is lost, and no pass finds the latch up. */
  predicate Undisturbed(z: Sizes, p: Port, steps: seq<Step>)
    requires Fits(z, p)
    decreases |steps|
  {
    steps != [] ==>
      && (steps[0].Arrive? ==> |p.ring| + |steps[0].data| <= z.ring)
      && (steps[0].StartPass? ==> !p.latch)
      && Undisturbed(z, Next(z, p, steps[0]), steps[1..])
  }

  lemma AllMetJoins(trace: seq<Happening>, items: seq<Item>, a: seq<Item>, b: seq<Item>)
    requires items == a + b
    ensures trace + AllMet(items) == (trace + AllMet(a)) + AllMet(b)
  {
    assert AllMet(items) == AllMet(a) + AllMet(b);
  }

  lemma TransferAhead(z: Sizes, w: Watched)
    requires Tracked(z, w)
    ensures Ahead(SeeTransfer(z, w)) == Ahead(w)
  {
    var n := CountFor(w.items, Min(CHUNK, |w.port.ring|));
    AllMetJoins(w.trace, w.items, w.items[..n], w.items[n..]);
  }

  lemma ArrivalAhead(z: Sizes, w: Watched, data: string)
    requires Fits(z, w.port) && |w.port.ring| + |data| <= z.ring
    ensures Ahead(SeeArrival(z, w, data)) == Ahead(w) + Further(data)
  {
    assert data[..|data|] == data;
    assert AllMet(w.items + Items(data) + []) == AllMet(w.items) + Further(data);
  }

  lemma FurtherJoins(trace: seq<Happening>, a: string, b: string)
    ensures trace + Further(a) + Further(b) == trace + Further(a + b)
    ensures trace + Further("") == trace
  {
  }

  /** An undisturbed continuation feeds what was ahead and then what it receives, in order. */
  lemma {:induction false} UndisturbedExtends(z: Sizes, w: Watched, more: seq<Step>)
    requires Faithful(z, w) && Undisturbed(z, w.port, more)
    ensures Faithful(z, Watch(z, w, more)) && Watch(z, w, more).port == After(z, w.port, more)
    ensures Ahead(Watch(z, w, more)) == Ahead(w) + Further(Received(more))
    decreases |more|
  {
    FurtherJoins(Ahead(w), "", "");
    if more != [] {
      OneStepWatched(z, w, more[0]);
      UndisturbedExtends(z, Seen(z, w, more[0]), more[1..]);
      FurtherJoins(Ahead(w), ArrivedIn(more[0]), Received(more[1..]));
      match more[0]
      case Arrive(data) => ArrivalAhead(z, w, data);
      case StartPass =>
      case Move => TransferAhead(z, w);
    }
  }

  lemma {:induction false} CutsStay(max: nat, trace: seq<Happening>, rest: seq<Happening>)
    ensures TraceCuts(max, trace) ==> TraceCuts(max, trace + rest)
    decreases |rest|
  {
    if rest == [] {
      assert trace + rest == trace;
    } else {
      var init, last := rest[..|rest| - 1], rest[|rest| - 1];
      assert trace + rest == (trace + init) + [last];
      CutsStay(max, trace, init);
      OneMore(max, trace + init, last);
    }
  }

  /** Losses alone execute nothing. */
  lemma {:induction false} LossesNeverCut(max: nat, trace: seq<Happening>, items: seq<Item>)
    requires Erase(items) == ""
    ensures TraceCuts(max, trace + AllMet(items)) <==> TraceCuts(max, trace)
  {
    if items == [] {
      assert trace + AllMet(items) == trace;
    } else {
      var init := items[..|items| - 1];
      LossesNeverCut(max, trace, init);
      MetOneMore(trace, items);
      OneMore(max, trace + AllMet(init), Met(items[|items| - 1]));
    }
  }

  /** Enough transfers to empty the ring. */
  function Draining(n: nat): seq<Step> {
    if n == 0 then [] else [Move] + Draining(n - 1)
  }

  /** One byte at a time, each fed before the next. */
  function Delivering(later: string): seq<Step> {
    if later == "" then [] else [Arrive(later[..1]), Move] + Delivering(later[1..])
  }

  lemma {:induction false} Drains(z: Sizes, p: Port, n: nat)
    requires Fits(z, p) && |p.ring| <= n
    ensures Undisturbed(z, p, Draining(n)) && Received(Draining(n)) == "" && After(z, p, Draining(n)).ring == ""
    decreases n
  {
    if n > 0 {
      assert Draining(n)[0] == Move && Draining(n)[1..] == Draining(n - 1);
      Drains(z, Transfer(z, p), n - 1);
    }
  }

  lemma {:induction false} Delivers(z: Sizes, p: Port, later: string)
    requires 0 < z.ring && p.ring == ""
    ensures Undisturbed(z, p, Delivering(later)) && Received(Delivering(later)) == later
    ensures After(z, p, Delivering(later)).ring == ""
    decreases |later|
  {
    if later != "" {
      var d := Delivering(later);
      assert d[0] == Arrive(later[..1]) && d[1] == Move && d[1..][1..] == Delivering(later[1..]);
      var p1 := Receive(z, p, later[..1]);
      assert p1.ring == later[..1] && Transfer(z, p1).ring == "";
      Delivers(z, Transfer(z, p1), later[1..]);
      assert Received(d[1..]) == "" + later[1..] == later[1..] && later == later[..1] + later[1..];
    }
  }

  lemma {:induction false} UndisturbedJoins(z: Sizes, p: Port, a: seq<Step>, b: seq<Step>)
    requires Fits(z, p) && Undisturbed(z, p, a)
    ensures Fits(z, After(z, p, a))
    ensures Undisturbed(z, After(z, p, a), b) ==> Undisturbed(z, p, a + b)
    ensures After(z, p, a + b) == After(z, After(z, p, a), b)
    ensures Received(a + b) == Received(a) + Received(b)
    decreases |a|
  {
    if a == [] {
      assert a + b == b && "" + Received(b) == Received(b);
    } else {
      assert (a + b)[1..] == a[1..] + b && (a + b)[0] == a[0];
      UndisturbedJoins(z, Next(z, p, a[0]), a[1..], b);
      Associates(ArrivedIn(a[0]), Received(a[1..]), Received(b));
    }
  }

  /** Whatever bytes are to come, some undisturbed continuation receives just these and drains the ring. */
  lemma Continuation(z: Sizes, p: Port, later: string) returns (more: seq<Step>)
    requires 0 < z.ring && Fits(z, p)
    ensures Undisturbed(z, p, more) && Received(more) == later && After(z, p, more).ring == ""
  {
    var n := |p.ring|;
    Drains(z, p, n);
    Delivers(z, After(z, p, Draining(n)), later);
    UndisturbedJoins(z, p, Draining(n), Delivering(later));
    assert "" + later == later;
    more := Draining(n) + Delivering(later);
  }

  /** Some undisturbed continuation has executed a cut line at its end. */
  ghost predicate CutsLater(z: Sizes, w: Watched)
    requires Tracked(z, w)
  {
    exists more: seq<Step> :: Undisturbed(z, w.port, more) && TraceCuts(z.line, Watch(z, w, more).trace)
  }

  lemma CutsLaterNeeds(z: Sizes, w: Watched, more: seq<Step>)
    requires Faithful(z, w) && Undisturbed(z, w.port, more) && TraceCuts(z.line, Watch(z, w, more).trace)
    ensures CanCut(z.line, Ahead(w))
  {
    UndisturbedExtends(z, w, more);
    CutsStay(z.line, Watch(z, w, more).trace, AllMet(Watch(z, w, more).items));
    assert TraceCuts(z.line, Ahead(w) + Further(Received(more)));
  }

  lemma CutsLaterFrom(z: Sizes, w: Watched, later: string)
    requires 0 < z.ring && Faithful(z, w) && TraceCuts(z.line, Ahead(w) + Further(later))
    ensures CutsLater(z, w)
  {
    var more := Continuation(z, w.port, later);
    UndisturbedExtends(z, w, more);
    LossesNeverCut(z.line, Watch(z, w, more).trace, Watch(z, w, more).items);
    assert TraceCuts(z.line, Watch(z, w, more).trace);
  }

  /** What is ahead leaves the draft of the editor fed the ring, and the draft of all the input received. */
  lemma AheadDrafts(z: Sizes, w: Watched)
    requires Faithful(z, w)
    ensures PairAfter(z.line, Ahead(w))
         == Pair(DraftAfter(z.line, DraftOf(w.port.editor), w.port.ring), DraftAfter(z.line, NOTHING_TYPED, Total(w)))
  {
    MetExtends(z.line, w.trace, w.items);
    MetRestores(w.trace, w.items);
    WholeDraft(z.line, Ahead(w));
  }

  /**
   * Exactly when a service can have executed a cut line without a further loss or reset: what is ahead of it does,
   * or leaves a draft that is neither latched nor the draft of the whole input.
   */
  lemma AheadCutsIff(z: Sizes, w: Watched)
    requires 1 < z.line && 0 < z.ring && Faithful(z, w)
    ensures CutsLater(z, w)
       <==> TraceCuts(z.line, Ahead(w))
            || !Harmless(DraftAfter(z.line, DraftOf(w.port.editor), w.port.ring),
                         DraftAfter(z.line, NOTHING_TYPED, Total(w)))
  {
    TraceCutsIff(z.line, Ahead(w));
    AheadDrafts(z, w);
    if CutsLater(z, w) {
      var more: seq<Step> :| Undisturbed(z, w.port, more) && TraceCuts(z.line, Watch(z, w, more).trace);
      CutsLaterNeeds(z, w, more);
    }
    if CanCut(z.line, Ahead(w)) {
      var later: string :| TraceCuts(z.line, Ahead(w) + Further(later));
      CutsLaterFrom(z, w, later);
    }
  }

  /** After any run from boot: by the bytes in the ring, the draft of the editor and all the input received. */
  lemma RunCutsIff(z: Sizes, steps: seq<Step>)
    requires 1 < z.line && 0 < z.ring
    ensures Tracked(z, NOTHING_SEEN) && Tracked(z, Watch(z, NOTHING_SEEN, steps))
    ensures var w, e := Watch(z, NOTHING_SEEN, steps), After(z, EMPTY, steps);
            CutsLater(z, w)
            <==> TraceCuts(z.line, Ahead(w))
                 || !Harmless(DraftAfter(z.line, DraftOf(e.editor), e.ring),
                              DraftAfter(z.line, NOTHING_TYPED, Received(steps)))
  {
    RunIsWatched(z, steps);
    AheadCutsIff(z, Watch(z, NOTHING_SEEN, steps));
  }

  /** The same when the next pass finds the latch up: the editor meets the reset first. */
  lemma ResetCutsIff(z: Sizes, steps: seq<Step>)
    requires 1 < z.line && 0 < z.ring && After(z, EMPTY, steps).latch
    ensures Tracked(z, NOTHING_SEEN) && Tracked(z, SeePass(Watch(z, NOTHING_SEEN, steps)))
    ensures var w, e := Watch(z, NOTHING_SEEN, steps), After(z, EMPTY, steps);
            CutsLater(z, SeePass(w))
            <==> TraceCuts(z.line, (w.trace + [Reset]) + AllMet(w.items))
                 || !Harmless(DraftAfter(z.line, NOTHING_TYPED, e.ring),
                              DraftAfter(z.line, NOTHING_TYPED, Received(steps)))
  {
    RunIsWatched(z, steps);
    SeePassFaithful(z, Watch(z, NOTHING_SEEN, steps));
    AheadCutsIff(z, SeePass(Watch(z, NOTHING_SEEN, steps)));
  }

  /** Only the place of a loss or a reset can damage the draft; without damage no run executes a cut line. */
  lemma {:induction false} CutNeedsDamage(max: nat, trace: seq<Happening>)
    requires forall n | 0 < n <= |trace| && !trace[n - 1].Fed? :: IsHarmless(max, trace[..n])
    ensures !TraceCuts(max, trace) && IsHarmless(max, trace)
  {
    if trace != [] {
      var last := |trace| - 1;
      var init := trace[..last];
      forall n | 0 < n <= |init| && !init[n - 1].Fed?
        ensures IsHarmless(max, init[..n])
      {
        assert init[..n] == trace[..n];
      }
      CutNeedsDamage(max, init);
      if !trace[last].Fed? {
        assert trace[..|trace|] == trace;
      }
    }
  }
}
