/** Channel masks: six 16-bit words, one bit a channel, and the sets of channels they stand for. */
module ChannelMask {
  import opened Bytes

  const WORDS := 6
  const FIXED_PLAN_CHANNELS := 72
  const FIXED_PLAN_WIDE := 64
  const FIXED_PLAN_WORDS := 5

  type Words = w: seq<u16> | |w| == WORDS witness [0, 0, 0, 0, 0, 0]

  const ZERO_MASK: Words := [0, 0, 0, 0, 0, 0]

  /** `(word & BIT(i)) != 0`. */
  predicate Bit(word: nat, i: nat) {
    if i == 0 then word % 2 == 1 else Bit(word / 2, i - 1)
  }

  /** `word | BIT(i)`. */
  function SetBit(word: nat, i: nat): nat {
    if i == 0 then word / 2 * 2 + 1 else SetBit(word / 2, i - 1) * 2 + word % 2
  }

  function Pow2(n: nat): nat {
    if n == 0 then 1 else 2 * Pow2(n - 1)
  }

  lemma Pow2Of16()
    ensures Pow2(16) == 0x1_0000
  {
    assert Pow2(4) == 16;
    assert Pow2(8) == 16 * Pow2(4);
    assert Pow2(12) == 16 * Pow2(8);
    assert Pow2(16) == 16 * Pow2(12);
  }

  lemma {:induction false} BitAfterSetBit(word: nat, i: nat, j: nat)
    ensures Bit(SetBit(word, i), j) == (i == j || Bit(word, j))
  {
    if i != 0 && j != 0 {
      BitAfterSetBit(word / 2, i - 1, j - 1);
    }
  }

  lemma DoubleBound(half: nat, bit: nat, bound: nat)
    requires half < bound && bit < 2
    ensures half * 2 + bit < 2 * bound
  {
  }

  lemma {:induction false} SetBitBound(word: nat, i: nat, n: nat)
    requires word < Pow2(n) && i < n
    ensures SetBit(word, i) < Pow2(n)
  {
    if i != 0 {
      SetBitBound(word / 2, i - 1, n - 1);
      DoubleBound(SetBit(word / 2, i - 1), word % 2, Pow2(n - 1));
    } else {
      DoubleBound(word / 2, 1, Pow2(n - 1));
    }
  }

  lemma {:induction false} EqualBits(a: nat, b: nat, n: nat)
    requires a < Pow2(n) && b < Pow2(n)
    requires forall i: nat | i < n :: Bit(a, i) == Bit(b, i)
    ensures a == b
  {
    if n != 0 {
      assert Bit(a, 0) == Bit(b, 0);
      forall i: nat | i < n - 1
        ensures Bit(a / 2, i) == Bit(b / 2, i)
      {
        assert Bit(a, i + 1) == Bit(b, i + 1);
      }
      EqualBits(a / 2, b / 2, n - 1);
    }
  }

  lemma {:induction false} ZeroHasNoBit(i: nat)
    ensures !Bit(0, i)
  {
    if i != 0 {
      ZeroHasNoBit(i - 1);
    }
  }

  predicate Has(mask: Words, channel: nat)
    requires channel < 96
  {
    Bit(mask[channel / 16], channel % 16)
  }

  function Put(mask: Words, channel: nat): (r: Words)
    requires channel < 96
    ensures forall c: nat | c < 96 :: Has(r, c) == (c == channel || Has(mask, c))
  {
    Pow2Of16();
    SetBitBound(mask[channel / 16], channel % 16, 16);
    var r: Words := mask[channel / 16 := SetBit(mask[channel / 16], channel % 16)];
    assert forall c: nat | c < 96 :: Has(r, c) == (c == channel || Has(mask, c)) by {
      forall c: nat | c < 96 && c / 16 == channel / 16
        ensures Has(r, c) == (c == channel || Has(mask, c))
      {
        BitAfterSetBit(mask[channel / 16], channel % 16, c % 16);
      }
    }
    r
  }

  /** The channels a mask enables. */
  function Channels(mask: Words): (s: set<nat>)
  {
    set c: nat | c < 96 && Has(mask, c)
  }

  /** A mask is nothing but its channel set. */
  lemma EqualChannels(a: Words, b: Words)
    requires Channels(a) == Channels(b)
    ensures a == b
  {
    forall w | 0 <= w < WORDS
      ensures a[w] == b[w]
    {
      forall i: nat | i < 16
        ensures Bit(a[w], i) == Bit(b[w], i)
      {
        var c: nat := 16 * w + i;
        assert c / 16 == w && c % 16 == i;
        assert c in Channels(a) <==> c in Channels(b);
      }
      Pow2Of16();
      EqualBits(a[w], b[w], 16);
    }
  }

  lemma ZeroMaskEmpty()
    ensures Channels(ZERO_MASK) == {}
  {
    forall c: nat | c < 96
      ensures !Has(ZERO_MASK, c)
    {
      ZeroHasNoBit(c % 16);
    }
  }

  /** The byte image of words in storage, on the little-endian targets of the repository. */
  function BytesOf(words: seq<u16>): (s: seq<byte>)
    ensures |s| == 2 * |words|
  {
    if words == [] then [] else PutLe16(words[0]) + BytesOf(words[1..])
  }

  function WordsOf(s: seq<byte>): (words: seq<u16>)
    requires |s| % 2 == 0
    ensures |words| == |s| / 2
  {
    if s == [] then [] else [GetLe16(s[..2])] + WordsOf(s[2..])
  }

  lemma {:induction false} WordsOfBytesOf(words: seq<u16>)
    ensures WordsOf(BytesOf(words)) == words
  {
    if words != [] {
      var s := BytesOf(words);
      assert s[..2] == PutLe16(words[0]) && s[2..] == BytesOf(words[1..]);
      WordsOfBytesOf(words[1..]);
    }
  }

  lemma {:induction false} WordsOfZeros(s: seq<byte>)
    requires |s| % 2 == 0 && forall i | 0 <= i < |s| :: s[i] == 0
    ensures forall i | 0 <= i < |WordsOf(s)| :: WordsOf(s)[i] == 0
  {
    if s != [] {
      WordsOfZeros(s[2..]);
    }
  }

  /** The schema's rule: no channel beyond the fixed plan; an empty mask stands for no restriction. */
  predicate WithinPlan(mask: Words) {
    forall c: nat | FIXED_PLAN_CHANNELS <= c < 96 :: !Has(mask, c)
  }

  /** What the credential store accepts as a restriction: within the plan and not empty. */
  predicate Selects(mask: Words) {
    WithinPlan(mask) && exists c: nat | c < FIXED_PLAN_CHANNELS :: Has(mask, c)
  }

  /** Within the plan, the only mask that selects nothing is the zero mask. */
  lemma SelectsUnlessZero(mask: Words)
    ensures Selects(mask) <==> WithinPlan(mask) && mask != ZERO_MASK
  {
    ZeroMaskEmpty();
    forall c: nat | c < 96
      ensures !Has(ZERO_MASK, c)
    {
      assert c !in Channels(ZERO_MASK);
    }
    if WithinPlan(mask) && !Selects(mask) {
      assert Channels(mask) == {};
      EqualChannels(mask, ZERO_MASK);
    }
  }
}
