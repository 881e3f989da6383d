/** The deliberate faults of a link: at most one cut, one flipped bit and one repeat per frame. */
module LinkFaults {
  import opened Bits
  import opened Bytes
  import opened Division

  /** What the random source decides for one frame. */
  datatype Choice = Choice(drop: bool, cut: Option<nat>, flip: Option<(nat, nat)>, twice: bool)

  /** The choices `randrange` can make for a frame of n bytes. */
  predicate Possible(c: Choice, n: nat) {
    && (c.cut.Some? ==> 1 <= c.cut.value < n)
    && (c.flip.Some? ==> c.flip.value.0 < Kept(c, n) && c.flip.value.1 < 8)
  }

  function Kept(c: Choice, n: nat): nat {
    if c.cut.Some? then c.cut.value else n
  }

  function FlipBit(b: byte, k: nat): (r: byte)
    requires k < 8
  {
    BitBelow(k);
    XorByte(b, Exp2(k))
  }

  lemma BitBelow(k: nat)
    requires k < 8
    ensures Exp2(k) < 256
  {
    Exp2Values();
    assert Exp2(3) == 8;
  }

  /** A frame after its cut and its flipped bit. */
  function Damaged(data: seq<byte>, c: Choice): (r: seq<byte>)
    requires Possible(c, |data|)
    ensures |r| == Kept(c, |data|)
  {
    var out := data[..Kept(c, |data|)];
    if c.flip.Some? then out[c.flip.value.0 := FlipBit(out[c.flip.value.0], c.flip.value.1)] else out
  }

  /** The frames delivered in place of one frame. */
  function Apply(data: seq<byte>, c: Choice): seq<seq<byte>>
    requires Possible(c, |data|)
  {
    if data == [] then [data]
    else if c.drop then []
    else
      var sent := Damaged(data, c);
      if c.twice then [sent, sent] else [sent]
  }

  /** What one read of the faulty endpoint returns: the frames delivered, joined. */
  function Delivered(data: seq<byte>, c: Choice): seq<byte>
    requires Possible(c, |data|)
  {
    Join(Apply(data, c))
  }

  lemma DeliveredIs(data: seq<byte>, c: Choice)
    requires Possible(c, |data|) && data != []
    ensures var sent := Damaged(data, c);
            Delivered(data, c) == if c.drop then [] else if c.twice then sent + sent else sent
  {
    hide Damaged;
    JoinedCopies(Damaged(data, c));
  }

  lemma JoinedCopies(x: seq<byte>)
    ensures Join([x]) == x && Join([x, x]) == x + x
  {
    assert [x][1..] == [] && [x, x][1..] == [x];
    assert x + [] == x;
  }

  /** The faulty endpoint's own steps on its working copy of the frame. */
  method ApplyInPlace(data: seq<byte>, c: Choice) returns (frames: seq<seq<byte>>)
    requires Possible(c, |data|)
    ensures frames == Apply(data, c)
  {
    if data == [] {
      return [data];
    }
    if c.drop {
      return [];
    }
    var out := new byte[|data|](i requires 0 <= i < |data| => data[i]);
    var length := out.Length;
    assert out[..] == data;
    if c.cut.Some? {
      length := c.cut.value;
    }
    if c.flip.Some? {
      out[c.flip.value.0] := FlipBit(out[c.flip.value.0], c.flip.value.1);
    }
    frames := [out[..length]];
    if c.twice {
      frames := frames + [out[..length]];
    }
  }

  /** A flipped bit is a different byte, and flipping it again restores it. */
  lemma FlipChanges(b: byte, k: nat)
    requires k < 8
    ensures FlipBit(b, k) != b && FlipBit(FlipBit(b, k), k) == b
  {
    BitBelow(k);
    XorUndo(b, Exp2(k));
    XorSelf(b);
    BitPositive(k);
  }

  lemma {:induction false} BitPositive(k: nat)
    ensures Exp2(k) > 0
  {
    if k > 0 {
      BitPositive(k - 1);
    }
  }

  lemma {:induction false} OneBitSet(k: nat, n: nat, j: nat)
    requires k < n && j < n
    ensures LowBitsOf(Exp2(k), n)[j] == (j == k)
    decreases n
  {
    if k == 0 {
      NoBits(n - 1);
    } else {
      assert Exp2(k) == 2 * Exp2(k - 1) && Exp2(k) / 2 == Exp2(k - 1) && Exp2(k) % 2 == 0;
      if j > 0 {
        OneBitSet(k - 1, n - 1, j - 1);
      }
    }
  }

  /** A flip changes the bit it names and no other. */
  lemma FlipsOneBit(b: byte, k: nat, j: nat)
    requires k < 8 && j < 8
    ensures LowBitsOf(FlipBit(b, k), 8)[j] == (LowBitsOf(b, 8)[j] != (j == k))
  {
    hide Xor, LowBitsOf;
    BitBelow(k);
    LowBitsXor(b, Exp2(k), 8);
    OneBitSet(k, 8, j);
  }
}
