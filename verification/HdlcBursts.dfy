/** Bursts on the wire: the check sequence, fed bit by bit in the order the line carries
    them, notices every change confined to sixteen consecutive bits. */
module HdlcBursts {
  import opened Bytes
  import opened Results
  import opened Hdlc

  function AsWord(b: bool): bv16 { if b then 1 else 0 }

  /** One bit enters the register. */
  function Feed(crc: bv16, b: bool): bv16 { Bit(Xor(crc, AsWord(b))) }

  function Serial(crc: bv16, bits: seq<bool>): bv16 {
    if bits == [] then crc else Feed(Serial(crc, bits[..|bits| - 1]), bits[|bits| - 1])
  }

  predicate Has(b: Byte, mask: Byte) { b & mask != 0 }

  /** The bits of a byte, the least significant first. */
  function BitsOf(b: Byte): (bits: seq<bool>)
    ensures |bits| == 8
  {
    [Has(b, 1), Has(b, 2), Has(b, 4), Has(b, 8), Has(b, 16), Has(b, 32), Has(b, 64), Has(b, 128)]
  }

  function Wire(data: seq<Byte>): (bits: seq<bool>)
    ensures |bits| == 8 * |data|
  {
    if data == [] then [] else Wire(data[..|data| - 1]) + BitsOf(data[|data| - 1])
  }

  // ---- a byte is its eight bits --------------------------------------------

  lemma WithoutLowBit(w: bv16)
    ensures (w ^ (w & 1)) & 1 == 0 && (w ^ (w & 1)) >> 1 == w >> 1
    ensures w & 1 == AsWord(w & 1 == 1)
  {
  }

  lemma XorBits(x: bv16, y: bv16, w: bv16)
    ensures (x ^ y) ^ (w ^ y) == x ^ w
  {
  }

  lemma XorRegroups(x: bv16, w: bv16)
    ensures Xor(Xor(x, w & 1), w ^ (w & 1)) == Xor(x, w)
  {
    XorBits(x, w & 1, w);
  }

  /** The lowest bit enters now, the others one step later. */
  lemma FeedsLowest(x: bv16, w: bv16)
    ensures Bit(Xor(x, w)) == Xor(Feed(x, w & 1 == 1), w >> 1)
  {
    hide Bit, Xor, AsWord;
    WithoutLowBit(w);
    XorRegroups(x, w);
    EvenStep(Xor(x, w & 1), w ^ (w & 1));
  }

  lemma ByteShifts(b: Byte)
    ensures var w := b as bv16;
      && (w >> 1) >> 1 == w >> 2 && (w >> 2) >> 1 == w >> 3 && (w >> 3) >> 1 == w >> 4 && (w >> 4) >> 1 == w >> 5
      && (w >> 5) >> 1 == w >> 6 && (w >> 6) >> 1 == w >> 7 && (w >> 7) >> 1 == 0
  {
  }

  lemma ByteBits(b: Byte)
    ensures var w := b as bv16;
      && Has(b, 1) == (w & 1 == 1) && Has(b, 2) == ((w >> 1) & 1 == 1) && Has(b, 4) == ((w >> 2) & 1 == 1)
      && Has(b, 8) == ((w >> 3) & 1 == 1) && Has(b, 16) == ((w >> 4) & 1 == 1) && Has(b, 32) == ((w >> 5) & 1 == 1)
      && Has(b, 64) == ((w >> 6) & 1 == 1) && Has(b, 128) == ((w >> 7) & 1 == 1)
  {
  }

  lemma XorNothing(x: bv16)
    ensures Xor(x, 0) == x
  {
  }

  lemma SerialFour(crc: bv16, u: seq<bool>, k: nat)
    requires k + 4 <= |u|
    ensures Serial(crc, u[..k + 4])
      == Feed(Feed(Feed(Feed(Serial(crc, u[..k]), u[k]), u[k + 1]), u[k + 2]), u[k + 3])
  {
    hide Feed, Serial;
    SerialOne(crc, u, k);
    SerialOne(crc, u, k + 1);
    SerialOne(crc, u, k + 2);
    SerialOne(crc, u, k + 3);
  }

  lemma SerialEight(crc: bv16, u: seq<bool>)
    requires |u| == 8
    ensures Serial(crc, u[..4]) == Feed(Feed(Feed(Feed(crc, u[0]), u[1]), u[2]), u[3])
    ensures Serial(crc, u) == Feed(Feed(Feed(Feed(Serial(crc, u[..4]), u[4]), u[5]), u[6]), u[7])
  {
    hide *;
    SerialNone(crc, u);
    SerialFour(crc, u, 0);
    SerialFour(crc, u, 4);
    assert u[..8] == u;
  }

  lemma SerialNone(crc: bv16, u: seq<bool>)
    ensures Serial(crc, u[..0]) == crc
  {
  }

  lemma SerialOne(crc: bv16, u: seq<bool>, k: nat)
    requires k < |u|
    ensures Serial(crc, u[..k + 1]) == Feed(Serial(crc, u[..k]), u[k])
  {
    hide Feed;
    assert u[..k + 1][..k] == u[..k];
  }

  lemma AbsorbIsSerial(crc: bv16, b: Byte)
    ensures Absorb(crc, b) == Serial(crc, BitsOf(b))
  {
    hide Bit, Xor, Feed, Serial, Has;
    var w := b as bv16;
    ByteShifts(b);
    ByteBits(b);
    var u := BitsOf(b);
    var x1 := Feed(crc, u[0]);
    var x2 := Feed(x1, u[1]);
    var x3 := Feed(x2, u[2]);
    var x4 := Feed(x3, u[3]);
    var x5 := Feed(x4, u[4]);
    var x6 := Feed(x5, u[5]);
    var x7 := Feed(x6, u[6]);
    FeedsLowest(crc, w);
    FeedsLowest(x1, w >> 1);
    FeedsLowest(x2, w >> 2);
    FeedsLowest(x3, w >> 3);
    FeedsLowest(x4, w >> 4);
    FeedsLowest(x5, w >> 5);
    FeedsLowest(x6, w >> 6);
    FeedsLowest(x7, w >> 7);
    XorNothing(Feed(x7, u[7]));
    MixIsXor(crc, b);
    SerialEight(crc, u);
  }

  lemma MixIsXor(crc: bv16, b: Byte)
    ensures Mix(crc, b) == Xor(crc, b as bv16)
  {
  }

  lemma {:induction false} SerialAfter(crc: bv16, u: seq<bool>, v: seq<bool>)
    ensures Serial(crc, u + v) == Serial(Serial(crc, u), v)
  {
    hide Feed;
    if v == [] {
      assert u + v == u;
    } else {
      SerialAfter(crc, u, v[..|v| - 1]);
      assert (u + v)[..|u + v| - 1] == u + v[..|v| - 1];
    }
  }

  /** The register over bytes is the register over their bits. */
  lemma {:induction false} RegisterIsSerial(crc: bv16, data: seq<Byte>)
    ensures Register(crc, data) == Serial(crc, Wire(data))
  {
    hide Absorb, BitsOf;
    if data != [] {
      var k := |data| - 1;
      RegisterIsSerial(crc, data[..k]);
      SerialAfter(crc, Wire(data[..k]), BitsOf(data[k]));
      AbsorbIsSerial(Register(crc, data[..k]), data[k]);
    }
  }

  // ---- sixteen bits --------------------------------------------------------

  function Packed(u: seq<bool>): Byte
    requires |u| == 8
  {
    Halves(Joined(u[0], u[1], u[2], u[3]), Joined(u[4], u[5], u[6], u[7]))
  }

  function Halves(l: Byte, h: Byte): Byte { l | (h << 4) }

  function Joined(b0: bool, b1: bool, b2: bool, b3: bool): Byte {
    (if b0 then 1 else 0) | (if b1 then 2 else 0) | (if b2 then 4 else 0) | (if b3 then 8 else 0)
  }

  lemma JoinedBits(b0: bool, b1: bool, b2: bool, b3: bool)
    ensures var h := Joined(b0, b1, b2, b3);
      && h < 16 && Has(h, 1) == b0 && Has(h, 2) == b1 && Has(h, 4) == b2 && Has(h, 8) == b3
  {
  }

  lemma HalvesBits(l: Byte, h: Byte)
    requires l < 16 && h < 16
    ensures var b := Halves(l, h);
      && Has(b, 1) == Has(l, 1) && Has(b, 2) == Has(l, 2) && Has(b, 4) == Has(l, 4) && Has(b, 8) == Has(l, 8)
      && Has(b, 16) == Has(h, 1) && Has(b, 32) == Has(h, 2) && Has(b, 64) == Has(h, 4) && Has(b, 128) == Has(h, 8)
  {
  }

  lemma PackedBits(u: seq<bool>)
    requires |u| == 8
    ensures BitsOf(Packed(u)) == u
  {
    hide Joined, Halves, Has;
    JoinedBits(u[0], u[1], u[2], u[3]);
    JoinedBits(u[4], u[5], u[6], u[7]);
    HalvesBits(Joined(u[0], u[1], u[2], u[3]), Joined(u[4], u[5], u[6], u[7]));
    EightListed(u);
  }

  lemma EightListed(u: seq<bool>)
    requires |u| == 8
    ensures u == [u[0], u[1], u[2], u[3], u[4], u[5], u[6], u[7]]
  {
  }

  lemma SixteenAsBytes(crc: bv16, u: seq<bool>)
    requires |u| == 16
    ensures Serial(crc, u) == Absorb(Absorb(crc, Packed(u[..8])), Packed(u[8..]))
  {
    hide Absorb, BitsOf, Packed, Serial;
    PackedBits(u[..8]);
    PackedBits(u[8..]);
    AbsorbIsSerial(crc, Packed(u[..8]));
    AbsorbIsSerial(Absorb(crc, Packed(u[..8])), Packed(u[8..]));
    SerialAfter(crc, u[..8], u[8..]);
    assert u[..8] + u[8..] == u;
  }

  lemma SixteenInjective(crc: bv16, u: seq<bool>, v: seq<bool>)
    requires |u| == |v| == 16 && Serial(crc, u) == Serial(crc, v)
    ensures u == v
  {
    hide Absorb, BitsOf, Packed, Serial;
    SixteenAsBytes(crc, u);
    SixteenAsBytes(crc, v);
    TwoInjective(crc, Packed(u[..8]), Packed(u[8..]), Packed(v[..8]), Packed(v[8..]));
    PackedBits(u[..8]);
    PackedBits(u[8..]);
    PackedBits(v[..8]);
    PackedBits(v[8..]);
    assert u == u[..8] + u[8..] && v == v[..8] + v[8..];
  }

  lemma FeedInjective(x: bv16, y: bv16, b: bool)
    requires Feed(x, b) == Feed(y, b)
    ensures x == y
  {
    hide Bit, AsWord, Xor;
    BitInjective(Xor(x, AsWord(b)), Xor(y, AsWord(b)));
    XorRightInjective(x, y, AsWord(b));
  }

  lemma XorRightInjective(x: bv16, y: bv16, w: bv16)
    requires Xor(x, w) == Xor(y, w)
    ensures x == y
  {
  }

  lemma {:induction false} TailKeepsApart(x: bv16, y: bv16, tail: seq<bool>)
    requires x != y
    ensures Serial(x, tail) != Serial(y, tail)
  {
    hide Feed;
    if tail != [] {
      var k := |tail| - 1;
      TailKeepsApart(x, y, tail[..k]);
      if Serial(x, tail) == Serial(y, tail) {
        FeedInjective(Serial(x, tail[..k]), Serial(y, tail[..k]), tail[k]);
      }
    }
  }

  /** Changing any sixteen consecutive bits in any way changes the register. */
  lemma BitBurstDetected(crc: bv16, head: seq<bool>, u: seq<bool>, v: seq<bool>, tail: seq<bool>)
    requires |u| == |v| == 16 && u != v
    ensures Serial(crc, head + u + tail) != Serial(crc, head + v + tail)
  {
    hide Serial;
    SerialAfter(crc, head + u, tail);
    SerialAfter(crc, head + v, tail);
    SerialAfter(crc, head, u);
    SerialAfter(crc, head, v);
    if Serial(Serial(crc, head), u) == Serial(Serial(crc, head), v) {
      SixteenInjective(Serial(crc, head), u, v);
    } else {
      TailKeepsApart(Serial(Serial(crc, head), u), Serial(Serial(crc, head), v), tail);
    }
  }

  // ---- frames --------------------------------------------------------------

  /** The line carries `frame'` for `frame`: some bits from `p` on are changed, none
      outside the sixteen that start there. */
  ghost predicate Burst(frame: seq<Byte>, frame': seq<Byte>, p: nat) {
    && |frame'| == |frame| && frame' != frame
    && forall k :: 0 <= k < 8 * |frame| && !(p <= k < p + 16) ==> Wire(frame')[k] == Wire(frame)[k]
  }

  lemma {:induction false} WireAfter(a: seq<Byte>, b: seq<Byte>)
    ensures Wire(a + b) == Wire(a) + Wire(b)
  {
    hide BitsOf;
    if b == [] {
      assert a + b == a;
    } else {
      WireAfter(a, b[..|b| - 1]);
      assert (a + b)[..|a + b| - 1] == a + b[..|b| - 1];
    }
  }

  lemma SameBits(b: Byte, d: Byte)
    ensures (Has(b, 1) == Has(d, 1) && Has(b, 2) == Has(d, 2) && Has(b, 4) == Has(d, 4) && Has(b, 8) == Has(d, 8)
      && Has(b, 16) == Has(d, 16) && Has(b, 32) == Has(d, 32) && Has(b, 64) == Has(d, 64)
      && Has(b, 128) == Has(d, 128)) ==> b == d
  {
  }

  lemma BitsInjective(b: Byte, d: Byte)
    requires BitsOf(b) == BitsOf(d)
    ensures b == d
  {
    var u, v := BitsOf(b), BitsOf(d);
    SameBits(b, d);
    hide Has;
    assert u[0] == v[0] && u[1] == v[1] && u[2] == v[2] && u[3] == v[3];
    assert u[4] == v[4] && u[5] == v[5] && u[6] == v[6] && u[7] == v[7];
  }

  lemma {:induction false} WireInjective(a: seq<Byte>, b: seq<Byte>)
    requires |a| == |b| && Wire(a) == Wire(b)
    ensures a == b
  {
    hide BitsOf;
    if a != [] {
      var k := |a| - 1;
      assert Wire(a)[..8 * k] == Wire(a[..k]) && Wire(b)[..8 * k] == Wire(b[..k]);
      assert Wire(a)[8 * k..] == BitsOf(a[k]) && Wire(b)[8 * k..] == BitsOf(b[k]);
      WireInjective(a[..k], b[..k]);
      BitsInjective(a[k], b[k]);
      assert a == a[..k] + [a[k]] && b == b[..k] + [b[k]];
    }
  }

  lemma ThreeParts(w: seq<bool>, a: seq<bool>, b: seq<bool>, c: seq<bool>, i: nat, j: nat)
    requires w == a + b + c && i == |a| && j == |a| + |b|
    ensures w[..i] == a && w[i..j] == b && w[j..] == c
  {
  }

  lemma WireOfParts(first: Byte, inner: seq<Byte>, last: Byte)
    ensures Wire([first] + inner + [last]) == BitsOf(first) + Wire(inner) + BitsOf(last)
  {
    hide *;
    WireAfter([first] + inner, [last]);
    WireAfter([first], inner);
    WireOfOne(first);
    WireOfOne(last);
  }

  lemma FrameParts(frame: seq<Byte>)
    requires |frame| >= 2
    ensures frame == [frame[0]] + frame[1..|frame| - 1] + [frame[|frame| - 1]]
  {
  }

  /** A frame on the wire is its flags around the bits between them. */
  lemma WireOfFrame(frame: seq<Byte>)
    requires |frame| >= 2
    ensures var n := |frame|; var w := Wire(frame);
      && w[8..8 * (n - 1)] == Wire(frame[1..n - 1])
      && w[..8] == BitsOf(frame[0]) && w[8 * (n - 1)..] == BitsOf(frame[n - 1])
  {
    hide *;
    var n := |frame|;
    var inner := frame[1..n - 1];
    FrameParts(frame);
    WireOfParts(frame[0], inner, frame[n - 1]);
    ThreeParts(Wire(frame), BitsOf(frame[0]), Wire(inner), BitsOf(frame[n - 1]), 8, 8 * (n - 1));
  }

  lemma WireOfOne(b: Byte)
    ensures Wire([b]) == BitsOf(b)
  {
    assert [b][..0] == [];
  }

  /** Two sequences that agree outside a window, seen through `lo..hi`. */
  lemma WindowSplits(w: seq<bool>, w': seq<bool>, lo: nat, p: nat, q: nat, hi: nat)
    requires lo <= p <= q <= hi <= |w| == |w'|
    requires forall k :: 0 <= k < |w| && !(p <= k < q) ==> w'[k] == w[k]
    ensures w'[..lo] == w[..lo] && w'[hi..] == w[hi..]
    ensures w[lo..hi] == w[lo..p] + w[p..q] + w[q..hi] && w'[lo..hi] == w[lo..p] + w'[p..q] + w[q..hi]
    ensures w[p..q] == w'[p..q] ==> w == w'
  {
    assert w'[..p] == w[..p] && w'[q..] == w[q..];
    assert w == w[..p] + w[p..q] + w[q..] && w' == w'[..p] + w'[p..q] + w'[q..];
  }

  lemma BurstKeepsFlags(frame: seq<Byte>, frame': seq<Byte>, p: nat)
    requires |frame| >= 2 && Burst(frame, frame', p) && 8 <= p && p + 16 <= 8 * (|frame| - 1)
    ensures |frame'| == |frame|
    ensures frame'[0] == frame[0] && frame'[|frame| - 1] == frame[|frame| - 1]
  {
    hide BitsOf, Wire;
    WireOfFrame(frame);
    WireOfFrame(frame');
    WindowSplits(Wire(frame), Wire(frame'), 8, p, p + 16, 8 * (|frame| - 1));
    BitsInjective(frame[0], frame'[0]);
    BitsInjective(frame[|frame| - 1], frame'[|frame| - 1]);
  }

  /** Between the flags a burst splits the wire. */
  lemma BurstSplits(frame: seq<Byte>, frame': seq<Byte>, p: nat)
    requires |frame| >= 2 && Burst(frame, frame', p) && 8 <= p && p + 16 <= 8 * (|frame| - 1)
    ensures |frame'| == |frame|
    ensures var n, w, w' := |frame|, Wire(frame), Wire(frame');
      && Wire(frame[1..n - 1]) == w[8..p] + w[p..p + 16] + w[p + 16..8 * (n - 1)]
      && Wire(frame'[1..n - 1]) == w[8..p] + w'[p..p + 16] + w[p + 16..8 * (n - 1)]
      && w[p..p + 16] != w'[p..p + 16]
  {
    hide BitsOf, Wire;
    var w, w' := Wire(frame), Wire(frame');
    WireOfFrame(frame);
    WireOfFrame(frame');
    WindowSplits(w, w', 8, p, p + 16, 8 * (|frame| - 1));
    if w == w' { WireInjective(frame, frame'); }
  }

  /** No burst of up to sixteen bits between the flags goes unnoticed, wherever it starts
      within a byte. */
  lemma BurstIsRejected(frame: seq<Byte>, frame': seq<Byte>, p: nat)
    requires ParseHdlcFrame(frame).Ok? && Burst(frame, frame', p)
    requires 8 <= p && p + 16 <= 8 * (|frame| - 1)
    ensures ParseHdlcFrame(frame') == Err("HDLC FCS mismatch")
  {
    hide Fcs, Register, Word, ParseHdlcFrame, Enclosed, Wire, Serial, Burst;
    AcceptedIsGood(frame);
    BurstKeepsFlags(frame, frame', p);
    BurstSplits(frame, frame', p);
    var n, w, w' := |frame|, Wire(frame), Wire(frame');
    RegisterIsSerial(INITIAL_FCS, frame[1..n - 1]);
    RegisterIsSerial(INITIAL_FCS, frame'[1..n - 1]);
    BitBurstDetected(INITIAL_FCS, w[8..p], w[p..p + 16], w'[p..p + 16], w[p + 16..8 * (n - 1)]);
    BadRegisterIsRejected(frame');
  }
}
