/** HDLC framing of the DLMS driver (ISO/IEC 13239) with the 16-bit frame check sequence
    of section C.2 of RFC 1662. */
module Hdlc {
  import opened Bytes
  import opened Results

  const FLAG: Byte := 0x7E
  const INITIAL_FCS: bv16 := 0xFFFF
  const GOOD_FCS: bv16 := 0xF0B8

  // ---- the check sequence --------------------------------------------------

  function Bit(crc: bv16): bv16 {
    if crc & 1 == 1 then (crc >> 1) ^ 0x8408 else crc >> 1
  }

  function Octet(crc: bv16): bv16 {
    Bit(Bit(Bit(Bit(Bit(Bit(Bit(Bit(crc))))))))
  }

  function Bits(crc: bv16, k: nat): bv16 {
    if k == 0 then crc else Bit(Bits(crc, k - 1))
  }

  function Xor(x: bv16, y: bv16): bv16 { x ^ y }

  function Mix(crc: bv16, b: Byte): bv16 { crc ^ b as bv16 }

  function Absorb(crc: bv16, b: Byte): bv16 { Octet(Mix(crc, b)) }

  function Register(crc: bv16, data: seq<Byte>): bv16 {
    if data == [] then crc else Absorb(Register(crc, data[..|data| - 1]), data[|data| - 1])
  }

  function Fcs(data: seq<Byte>): bv16 {
    Xor(Register(INITIAL_FCS, data), 0xFFFF)
  }

  method Fcs16(data: seq<Byte>) returns (fcs: bv16)
    ensures fcs == Fcs(data)
  {
    hide Absorb;
    var crc := INITIAL_FCS;
    for i := 0 to |data|
      invariant crc == Register(INITIAL_FCS, data[..i])
    {
      crc := AbsorbByte(crc, data[i]);
      assert data[..i + 1][..i] == data[..i];
    }
    assert data[..|data|] == data;
    fcs := crc ^ 0xFFFF;
  }

  method AbsorbByte(crc0: bv16, b: Byte) returns (crc: bv16)
    ensures crc == Absorb(crc0, b)
  {
    hide Octet;
    crc := crc0 ^ b as bv16;
    ghost var mixed := crc;
    EightBits(mixed);
    for k := 0 to 8
      invariant crc == Bits(mixed, k)
    {
      crc := if crc & 1 == 1 then (crc >> 1) ^ 0x8408 else crc >> 1;
    }
  }

  lemma EightBits(crc: bv16)
    ensures Bits(crc, 8) == Octet(crc)
  {
    hide Bit;
    assert Bits(crc, 1) == Bit(crc);
    assert Bits(crc, 2) == Bit(Bit(crc));
    assert Bits(crc, 4) == Bit(Bit(Bits(crc, 2)));
    assert Bits(crc, 6) == Bit(Bit(Bits(crc, 4)));
    assert Bits(crc, 8) == Bit(Bit(Bits(crc, 6)));
  }

  /** The bit step loses nothing: the polynomial's top bit marks which branch was taken. */
  lemma BitInjective(x: bv16, y: bv16)
    requires Bit(x) == Bit(y)
    ensures x == y
  {
  }

  lemma OctetInjective(x: bv16, y: bv16)
    requires Octet(x) == Octet(y)
    ensures x == y
  {
    hide Bit;
    BitInjective(Bit(Bit(Bit(Bit(Bit(Bit(Bit(x))))))), Bit(Bit(Bit(Bit(Bit(Bit(Bit(y))))))));
    BitInjective(Bit(Bit(Bit(Bit(Bit(Bit(x)))))), Bit(Bit(Bit(Bit(Bit(Bit(y)))))));
    BitInjective(Bit(Bit(Bit(Bit(Bit(x))))), Bit(Bit(Bit(Bit(Bit(y))))));
    BitInjective(Bit(Bit(Bit(Bit(x)))), Bit(Bit(Bit(Bit(y)))));
    BitInjective(Bit(Bit(Bit(x))), Bit(Bit(Bit(y))));
    BitInjective(Bit(Bit(x)), Bit(Bit(y)));
    BitInjective(Bit(x), Bit(y));
    BitInjective(x, y);
  }

  function Word(lo: Byte, hi: Byte): bv16 {
    lo as bv16 | ((hi as bv16) << 8)
  }

  lemma EvenStepBits(x: bv16, w: bv16)
    requires w & 1 == 0
    ensures Bit(x ^ w) == Bit(x) ^ (w >> 1)
  {
  }

  lemma EvenStep(x: bv16, w: bv16)
    requires w & 1 == 0
    ensures Bit(Xor(x, w)) == Xor(Bit(x), w >> 1)
  {
    hide Bit;
    EvenStepBits(x, w);
  }

  lemma Halvings(b: Byte, w: bv16)
    requires w == (b as bv16) << 8
    ensures w & 1 == 0 && (w >> 1) & 1 == 0 && (w >> 2) & 1 == 0 && (w >> 3) & 1 == 0
    ensures (w >> 4) & 1 == 0 && (w >> 5) & 1 == 0 && (w >> 6) & 1 == 0 && (w >> 7) & 1 == 0
    ensures (w >> 1) >> 1 == w >> 2 && (w >> 2) >> 1 == w >> 3 && (w >> 3) >> 1 == w >> 4 && (w >> 4) >> 1 == w >> 5
    ensures (w >> 5) >> 1 == w >> 6 && (w >> 6) >> 1 == w >> 7 && (w >> 7) >> 1 == b as bv16
  {
  }

  /** Eight steps bring a byte in the upper half down unchanged. */
  lemma UpperByteFalls(x: bv16, b: Byte, w: bv16)
    requires w == (b as bv16) << 8
    ensures Octet(Xor(x, w)) == Xor(Octet(x), b as bv16)
  {
    hide Bit, Xor;
    Halvings(b, w);
    var x1 := Bit(x);
    var x2 := Bit(x1);
    var x3 := Bit(x2);
    var x4 := Bit(x3);
    var x5 := Bit(x4);
    var x6 := Bit(x5);
    EvenStep(x, w);
    EvenStep(x1, w >> 1);
    EvenStep(x2, w >> 2);
    EvenStep(x3, w >> 3);
    EvenStep(x4, w >> 4);
    EvenStep(x5, w >> 5);
    EvenStep(x6, w >> 6);
    EvenStep(Bit(x6), w >> 7);
  }

  lemma UpperByteShifts(x: bv16, hi: Byte)
    ensures Octet(Raise(x, hi)) == Mix(Octet(x), hi)
  {
    hide Octet;
    UpperByteFalls(x, hi, (hi as bv16) << 8);
  }

  function Raise(x: bv16, hi: Byte): bv16 { x ^ ((hi as bv16) << 8) }

  lemma WordSplits(c: bv16, lo: Byte, hi: Byte)
    ensures Xor(c, Word(lo, hi)) == Raise(Mix(c, lo), hi)
  {
  }

  lemma WordInjective(a: Byte, b: Byte, a': Byte, b': Byte)
    requires Word(a, b) == Word(a', b')
    ensures a == a' && b == b'
  {
  }

  lemma MixInjective(x: bv16, y: bv16, b: Byte)
    requires Mix(x, b) == Mix(y, b)
    ensures x == y
  {
  }

  lemma XorInjective(z: bv16, x: bv16, y: bv16)
    requires Xor(z, x) == Xor(z, y)
    ensures x == y
  {
  }

  lemma AbsorbInjective(x: bv16, y: bv16, b: Byte)
    requires Absorb(x, b) == Absorb(y, b)
    ensures x == y
  {
    hide Octet, Mix;
    OctetInjective(Mix(x, b), Mix(y, b));
    MixInjective(x, y, b);
  }

  /** Two bytes enter the register as one 16-bit word. */
  lemma AbsorbTwo(c: bv16, lo: Byte, hi: Byte)
    ensures Absorb(Absorb(c, lo), hi) == Octet(Octet(Xor(c, Word(lo, hi))))
  {
    hide Octet, Word, Mix, Xor, Raise;
    UpperByteShifts(Mix(c, lo), hi);
    WordSplits(c, lo, hi);
  }

  lemma TwoInjective(c: bv16, a: Byte, b: Byte, a': Byte, b': Byte)
    requires Absorb(Absorb(c, a), b) == Absorb(Absorb(c, a'), b')
    ensures a == a' && b == b'
  {
    hide Octet, Word, Absorb, Xor;
    AbsorbTwo(c, a, b);
    AbsorbTwo(c, a', b');
    var w, w' := Word(a, b), Word(a', b');
    OctetInjective(Octet(Xor(c, w)), Octet(Xor(c, w')));
    OctetInjective(Xor(c, w), Xor(c, w'));
    XorInjective(c, w, w');
    WordInjective(a, b, a', b');
  }

  lemma GoodResidue()
    ensures Octet(Octet(0xFFFF)) == GOOD_FCS
  {
  }

  lemma XorTurns(c: bv16, w: bv16, v: bv16)
    requires Xor(c, w) == v
    ensures Xor(c, v) == w
  {
  }

  lemma GoodTwo(c: bv16, lo: Byte, hi: Byte)
    ensures Absorb(Absorb(c, lo), hi) == GOOD_FCS <==> Xor(c, 0xFFFF) == Word(lo, hi)
  {
    hide Octet, Word, Absorb, Xor;
    var w := Word(lo, hi);
    AbsorbTwo(c, lo, hi);
    GoodResidue();
    if Octet(Octet(Xor(c, w))) == Octet(Octet(0xFFFF)) {
      OctetInjective(Octet(Xor(c, w)), Octet(0xFFFF));
      OctetInjective(Xor(c, w), 0xFFFF);
      XorTurns(c, w, 0xFFFF);
    } else if Xor(c, 0xFFFF) == w {
      XorTurns(c, 0xFFFF, w);
    }
  }

  lemma TwoMore(crc: bv16, data: seq<Byte>, lo: Byte, hi: Byte)
    ensures Register(crc, data + [lo, hi]) == Absorb(Absorb(Register(crc, data), lo), hi)
  {
    OneMore(crc, data, lo);
    OneMore(crc, data + [lo], hi);
    hide Absorb, Register;
    assert data + [lo, hi] == data + [lo] + [hi];
  }

  lemma OneMore(crc: bv16, data: seq<Byte>, b: Byte)
    ensures Register(crc, data + [b]) == Absorb(Register(crc, data), b)
  {
    hide Absorb;
    assert (data + [b])[..|data|] == data;
  }

  lemma {:induction false} SameTail(crc: bv16, a: seq<Byte>, b: seq<Byte>, tail: seq<Byte>)
    ensures Register(crc, a + tail) == Register(crc, b + tail) <==> Register(crc, a) == Register(crc, b)
  {
    hide Absorb;
    if tail == [] {
      assert a + tail == a && b + tail == b;
    } else {
      var k, last := |tail| - 1, tail[|tail| - 1];
      SameTail(crc, a, b, tail[..k]);
      assert (a + tail)[..|a + tail| - 1] == a + tail[..k] && (b + tail)[..|b + tail| - 1] == b + tail[..k];
      var x, y := Register(crc, a + tail[..k]), Register(crc, b + tail[..k]);
      if Absorb(x, last) == Absorb(y, last) { AbsorbInjective(x, y, last); }
    }
  }

  /** A body and its check sequence bring the register to one fixed value, and nothing
      else does. */
  lemma GoodIffChecked(body: seq<Byte>, lo: Byte, hi: Byte)
    ensures Register(INITIAL_FCS, body + [lo, hi]) == GOOD_FCS <==> Fcs(body) == Word(lo, hi)
  {
    hide Absorb, Word, Register, Xor;
    TwoMore(INITIAL_FCS, body, lo, hi);
    GoodTwo(Register(INITIAL_FCS, body), lo, hi);
  }

  /** Changing two adjacent bytes in any way changes the register. */
  lemma BurstDetected(crc: bv16, head: seq<Byte>, a: Byte, b: Byte, a': Byte, b': Byte, tail: seq<Byte>)
    requires (a, b) != (a', b')
    ensures Register(crc, head + [a, b] + tail) != Register(crc, head + [a', b'] + tail)
  {
    hide Absorb, Register;
    SameTail(crc, head + [a, b], head + [a', b'], tail);
    TwoMore(crc, head, a, b);
    TwoMore(crc, head, a', b');
    if Register(crc, head + [a, b]) == Register(crc, head + [a', b']) {
      TwoInjective(Register(crc, head), a, b, a', b');
    }
  }

  // ---- frames --------------------------------------------------------------

  datatype Contents = Contents(address: Byte, control: Byte, info: seq<Byte>)

  function Body(address: int, control: int, info: seq<Byte>): seq<Byte>
    requires 0 <= address < 128
  {
    [((address as Byte) << 1) | 1, (control % 256) as Byte] + info
  }

  function Low(w: bv16): Byte { (w & 0xFF) as Byte }

  function High(w: bv16): Byte { (w >> 8) as Byte }

  function Enclosed(body: seq<Byte>, lo: Byte, hi: Byte): seq<Byte> {
    [FLAG] + body + [lo, hi] + [FLAG]
  }

  lemma Inner(body: seq<Byte>, lo: Byte, hi: Byte)
    ensures var f := Enclosed(body, lo, hi);
      |f| == |body| + 4 && f[1..|f| - 3] == body && f[|f| - 3] == lo && f[|f| - 2] == hi
  {
  }

  /** A one-byte address field holds seven bits of address; a larger or negative address
      does not fit a byte and raises. */
  function BuildHdlcFrame(address: int, control: int, info: seq<Byte>): Result<seq<Byte>> {
    if 0 <= address < 128 then
      var body := Body(address, control, info);
      Ok(Enclosed(body, Low(Fcs(body)), High(Fcs(body))))
    else Err("bytes must be in range(0, 256)")
  }

  function ParseHdlcFrame(frame: seq<Byte>): Result<Contents> {
    var n := |frame|;
    if n < 5 || frame[0] != FLAG || frame[n - 1] != FLAG then Err("not an HDLC frame (bad flag delimiters)")
    else
      var body := frame[1..n - 3];
      if Fcs(body) != Word(frame[n - 3], frame[n - 2]) then Err("HDLC FCS mismatch")
      else if |body| < 2 then Err("HDLC frame body too short")
      else Ok(Contents(body[0] >> 1, body[1], body[2..]))
  }

  lemma WordOfHalves(w: bv16)
    ensures Word(Low(w), High(w)) == w
  {
  }

  lemma AddressFits(address: int)
    requires 0 <= address < 128
    ensures (((address as Byte) << 1) | 1) >> 1 == address as Byte
  {
    SmallByte(address);
    SevenBits(address as Byte);
  }

  lemma SevenBits(a: Byte)
    requires a < 0x80
    ensures ((a << 1) | 1) >> 1 == a && ((a << 1) | 1) & 1 == 1
  {
  }

  lemma ParsesIff(frame: seq<Byte>, body: seq<Byte>, lo: Byte, hi: Byte)
    requires frame == Enclosed(body, lo, hi) && |body| >= 1
    ensures ParseHdlcFrame(frame)
         == if Fcs(body) != Word(lo, hi) then Err("HDLC FCS mismatch")
            else if |body| < 2 then Err("HDLC frame body too short")
            else Ok(Contents(body[0] >> 1, body[1], body[2..]))
  {
    Inner(body, lo, hi);
    hide Fcs, Word;
  }

  lemma BuildIs(address: int, control: int, info: seq<Byte>)
    requires 0 <= address < 128
    ensures var body := Body(address, control, info);
      BuildHdlcFrame(address, control, info) == Ok(Enclosed(body, Low(Fcs(body)), High(Fcs(body))))
  {
    hide Fcs, Body, Low, High;
  }

  lemma BodyParts(address: int, control: int, info: seq<Byte>)
    requires 0 <= address < 128
    ensures var body := Body(address, control, info);
      |body| >= 2 && body[0] >> 1 == address as Byte && body[1] == (control % 256) as Byte && body[2..] == info
  {
    AddressFits(address);
  }

  lemma BuildsIff(address: int, control: int, info: seq<Byte>)
    ensures BuildHdlcFrame(address, control, info).Ok? <==> 0 <= address < 128
  {
    hide Fcs, Body, Low, High;
  }

  /** A frame is built exactly for addresses of seven bits, and parsing it gives back the
      address, the low byte of the control value and the information field. */
  lemma BuildThenParse(address: int, control: int, info: seq<Byte>)
    ensures BuildHdlcFrame(address, control, info).Ok? <==> 0 <= address < 128
    ensures BuildHdlcFrame(address, control, info).Ok? ==>
      ParseHdlcFrame(BuildHdlcFrame(address, control, info).value)
      == Ok(Contents(address as Byte, (control % 256) as Byte, info))
  {
    hide *;
    BuildsIff(address, control, info);
    if 0 <= address < 128 {
      var body := Body(address, control, info);
      BuildIs(address, control, info);
      BodyParts(address, control, info);
      WordOfHalves(Fcs(body));
      ParsesIff(Enclosed(body, Low(Fcs(body)), High(Fcs(body))), body, Low(Fcs(body)), High(Fcs(body)));
    }
  }

  lemma ParsedParts(frame: seq<Byte>) returns (body: seq<Byte>, lo: Byte, hi: Byte)
    requires ParseHdlcFrame(frame).Ok?
    ensures frame == Enclosed(body, lo, hi) && Fcs(body) == Word(lo, hi) && |body| >= 2
    ensures |frame| >= 6 && frame[1] == body[0]
    ensures ParseHdlcFrame(frame) == Ok(Contents(body[0] >> 1, body[1], body[2..]))
  {
    hide Fcs, Word;
    var n := |frame|;
    body, lo, hi := frame[1..n - 3], frame[n - 3], frame[n - 2];
    FrameIsEnclosed(frame);
  }

  /** Parsing ignores the extension bit and nothing else: a frame that parses is the one
      built from what it parsed to exactly when that bit is set. */
  lemma ParseThenBuild(frame: seq<Byte>)
    requires ParseHdlcFrame(frame).Ok?
    ensures var c := ParseHdlcFrame(frame).value;
      |frame| >= 6
      && (frame[1] & 1 == 1 <==> BuildHdlcFrame(c.address as int, c.control as int, c.info) == Ok(frame))
  {
    hide *;
    var body, lo, hi := ParsedParts(frame);
    BodyOf(body);
    HalvesOfWord(lo, hi);
    BuildIs((body[0] >> 1) as int, body[1] as int, body[2..]);
    Rebuilt(frame, body, lo, hi, Body((body[0] >> 1) as int, body[1] as int, body[2..]));
  }

  lemma Rebuilt(frame: seq<Byte>, body: seq<Byte>, lo: Byte, hi: Byte, body': seq<Byte>)
    requires frame == Enclosed(body, lo, hi) && Low(Fcs(body)) == lo && High(Fcs(body)) == hi
    ensures Enclosed(body', Low(Fcs(body')), High(Fcs(body'))) == frame <==> body' == body
  {
    hide Enclosed, Low, High, Fcs;
    Inner(body, lo, hi);
    Inner(body', Low(Fcs(body')), High(Fcs(body')));
  }

  lemma FrameIsEnclosed(frame: seq<Byte>)
    requires |frame| >= 5 && frame[0] == FLAG && frame[|frame| - 1] == FLAG
    ensures frame == Enclosed(frame[1..|frame| - 3], frame[|frame| - 3], frame[|frame| - 2])
  {
  }

  lemma BodyOf(body: seq<Byte>)
    requires |body| >= 2
    ensures 0 <= (body[0] >> 1) as int < 128
    ensures Body((body[0] >> 1) as int, body[1] as int, body[2..]) == body <==> body[0] & 1 == 1
  {
    AddressByte(body[0]);
    ControlByte(body[1]);
    assert body == [body[0], body[1]] + body[2..];
  }

  lemma AddressByte(b: Byte)
    ensures b >> 1 < 0x80 && 0 <= (b >> 1) as int < 128
    ensures ((b >> 1) as int) as Byte == b >> 1
    ensures (((b >> 1) << 1) | 1 == b) <==> b & 1 == 1
  {
    assert b >> 1 < 0x80;
  }

  lemma ControlByte(b: Byte)
    ensures ((b as int) % 256) as Byte == b
  {
    ByteBack(b);
    assert b as int == (b as int) % 256;
  }

  lemma HalvesOfWord(lo: Byte, hi: Byte)
    ensures Low(Word(lo, hi)) == lo && High(Word(lo, hi)) == hi
  {
  }

  // ---- damage --------------------------------------------------------------

  /** `frame'` differs from `frame`, and only in bytes `i` and `i + 1`. */
  ghost predicate Damaged(frame: seq<Byte>, frame': seq<Byte>, i: nat) {
    && |frame'| == |frame| && frame' != frame && i + 1 < |frame|
    && forall j :: 0 <= j < |frame| && j != i && j != i + 1 ==> frame'[j] == frame[j]
  }

  lemma AcceptedIsGood(frame: seq<Byte>)
    requires ParseHdlcFrame(frame).Ok?
    ensures |frame| >= 6 && frame[0] == FLAG && frame[|frame| - 1] == FLAG
    ensures Register(INITIAL_FCS, frame[1..|frame| - 1]) == GOOD_FCS
  {
    hide Fcs, Register, Word;
    var n := |frame|;
    GoodIffChecked(frame[1..n - 3], frame[n - 3], frame[n - 2]);
    assert frame[1..n - 1] == frame[1..n - 3] + [frame[n - 3], frame[n - 2]];
  }

  lemma DamageSplits(frame: seq<Byte>, frame': seq<Byte>, i: nat)
    requires Damaged(frame, frame', i) && 1 <= i && i + 1 <= |frame| - 2
    ensures var n := |frame|; var head, tail := frame[1..i], frame[i + 2..n - 1];
      && frame[1..n - 1] == head + [frame[i], frame[i + 1]] + tail
      && frame'[1..n - 1] == head + [frame'[i], frame'[i + 1]] + tail
    ensures (frame[i], frame[i + 1]) != (frame'[i], frame'[i + 1])
  {
    var j :| 0 <= j < |frame| && frame'[j] != frame[j];
    assert j == i || j == i + 1;
  }

  lemma BadRegisterIsRejected(frame: seq<Byte>)
    requires |frame| >= 6 && frame[0] == FLAG && frame[|frame| - 1] == FLAG
    requires Register(INITIAL_FCS, frame[1..|frame| - 1]) != GOOD_FCS
    ensures ParseHdlcFrame(frame) == Err("HDLC FCS mismatch")
  {
    hide Fcs, Register, Word, ParseHdlcFrame, Enclosed;
    var n := |frame|;
    var body, lo, hi := frame[1..n - 3], frame[n - 3], frame[n - 2];
    GoodIffChecked(body, lo, hi);
    assert frame[1..n - 1] == body + [lo, hi];
    FrameIsEnclosed(frame);
    ParsesIff(frame, body, lo, hi);
  }

  /** No change confined to two adjacent bytes between the flags goes unnoticed, whether
      it falls in the body, in the check sequence, or across both. */
  lemma DamageIsRejected(frame: seq<Byte>, frame': seq<Byte>, i: nat)
    requires ParseHdlcFrame(frame).Ok? && Damaged(frame, frame', i)
    requires 1 <= i && i + 1 <= |frame| - 2
    ensures ParseHdlcFrame(frame') == Err("HDLC FCS mismatch")
  {
    hide Fcs, Register, Word, ParseHdlcFrame, Enclosed;
    AcceptedIsGood(frame);
    DamageSplits(frame, frame', i);
    var head, tail := frame[1..i], frame[i + 2..|frame| - 1];
    BurstDetected(INITIAL_FCS, head, frame[i], frame[i + 1], frame'[i], frame'[i + 1], tail);
    BadRegisterIsRejected(frame');
  }

  // ---- reading from the link -----------------------------------------------

  /** What is read from `stream` when `buf` has been collected since the last flag; the
      end of the stream stands for a closed connection or a timeout. */
  function Receive(stream: seq<Byte>, started: bool, buf: seq<Byte>): Result<seq<Byte>> {
    if stream == [] then
      if started && |buf| > 2 then Ok([FLAG] + buf + [FLAG]) else Err("no complete HDLC frame received")
    else if stream[0] != FLAG then
      Receive(stream[1..], started, if started then buf + [stream[0]] else buf)
    else if started && |buf| > 2 then Ok([FLAG] + buf + [FLAG])
    else Receive(stream[1..], true, [])
  }

  method RecvHdlcFrame(stream: seq<Byte>) returns (r: Result<seq<Byte>>)
    ensures r == Receive(stream, false, [])
  {
    var buf: seq<Byte> := [];
    var started, i := false, 0;
    while i < |stream|
      invariant 0 <= i <= |stream|
      invariant Receive(stream[i..], started, buf) == Receive(stream, false, [])
    {
      var b := stream[i];
      assert stream[i..][1..] == stream[i + 1..];
      i := i + 1;
      if b == FLAG {
        if started && |buf| > 2 {
          return Ok([FLAG] + buf + [FLAG]);
        }
        buf, started := [], true;
      } else if started {
        buf := buf + [b];
      }
    }
    if started && |buf| > 2 {
      return Ok([FLAG] + buf + [FLAG]);
    }
    return Err("no complete HDLC frame received");
  }

  lemma {:induction false} ReceivedHoldsNoFlag(stream: seq<Byte>, started: bool, buf: seq<Byte>)
    requires FLAG !in buf && Receive(stream, started, buf).Ok?
    ensures var f := Receive(stream, started, buf).value; |f| >= 5 && FLAG !in f[1..|f| - 1]
  {
    if stream == [] || (stream[0] == FLAG && started && |buf| > 2) {
      assert ([FLAG] + buf + [FLAG])[1..|buf| + 1] == buf;
    } else if stream[0] != FLAG {
      ReceivedHoldsNoFlag(stream[1..], started, if started then buf + [stream[0]] else buf);
    } else {
      ReceivedHoldsNoFlag(stream[1..], true, []);
    }
  }

  lemma {:induction false} CollectsUntilFlag(inner: seq<Byte>, rest: seq<Byte>, buf: seq<Byte>)
    requires FLAG !in inner && |buf + inner| > 2
    ensures Receive(inner + [FLAG] + rest, true, buf) == Ok([FLAG] + (buf + inner) + [FLAG])
  {
    var s := inner + [FLAG] + rest;
    if inner == [] {
      assert buf + inner == buf;
    } else {
      assert s[1..] == inner[1..] + [FLAG] + rest;
      assert (buf + [inner[0]]) + inner[1..] == buf + inner;
      CollectsUntilFlag(inner[1..], rest, buf + [inner[0]]);
    }
  }

  /** There is no byte stuffing, so a built frame is read back from the link exactly when
      none of its inner bytes, check sequence included, is a flag. */
  lemma ReadBackIffNoInnerFlag(address: int, control: int, info: seq<Byte>, rest: seq<Byte>)
    requires 0 <= address < 128
    ensures var frame := BuildHdlcFrame(address, control, info).value;
      Receive(frame + rest, false, []) == Ok(frame) <==> FLAG !in frame[1..|frame| - 1]
  {
    hide Fcs, Body;
    var body := Body(address, control, info);
    var inner := body + [Low(Fcs(body)), High(Fcs(body))];
    var frame := BuildHdlcFrame(address, control, info).value;
    assert frame == [FLAG] + inner + [FLAG];
    assert frame[1..|frame| - 1] == inner;
    if FLAG !in inner {
      BodyLength(address, control, info);
      assert (frame + rest)[1..] == inner + [FLAG] + rest;
      CollectsUntilFlag(inner, rest, []);
      assert [] + inner == inner;
    } else if Receive(frame + rest, false, []) == Ok(frame) {
      ReceivedHoldsNoFlag(frame + rest, false, []);
    }
  }

  /** An information field that holds a flag byte never comes back as it was sent. */
  lemma FlagInInfoIsLost(address: int, control: int, info: seq<Byte>, rest: seq<Byte>)
    requires 0 <= address < 128 && FLAG in info
    ensures var frame := BuildHdlcFrame(address, control, info).value;
      Receive(frame + rest, false, []) != Ok(frame)
  {
    hide Fcs, Receive;
    ReadBackIffNoInnerFlag(address, control, info, rest);
    var body := Body(address, control, info);
    var frame := BuildHdlcFrame(address, control, info).value;
    assert frame[1..|frame| - 1] == body + [Low(Fcs(body)), High(Fcs(body))];
  }

  /** The one-byte field [0x7E] is such a field. */
  lemma LoneFlagIsLost()
    ensures var frame := BuildHdlcFrame(1, 0x10, [FLAG]).value;
      FLAG in frame[1..|frame| - 1] && Receive(frame, false, []) != Ok(frame)
  {
    hide Fcs, Receive;
    FlagInInfoIsLost(1, 0x10, [FLAG], []);
    ReadBackIffNoInnerFlag(1, 0x10, [FLAG], []);
    var frame := BuildHdlcFrame(1, 0x10, [FLAG]).value;
    assert frame + [] == frame;
    var body := Body(1, 0x10, [FLAG]);
    assert frame[1..|frame| - 1] == body + [Low(Fcs(body)), High(Fcs(body))];
  }

  lemma BodyLength(address: int, control: int, info: seq<Byte>)
    requires 0 <= address < 128
    ensures |Body(address, control, info)| == |info| + 2
  {
  }

  // ---- control bytes -------------------------------------------------------

  predicate IsUFrame(control: Byte) { control & 3 == 3 }

  predicate IsIFrame(control: Byte) { control & 1 == 0 }

  function IFrameControl(sendSeq: Byte, recvSeq: Byte): Byte {
    ((recvSeq & 7) << 5) | ((sendSeq & 7) << 1)
  }

  function IFrameSeq(control: Byte): (Byte, Byte) {
    ((control >> 1) & 7, (control >> 5) & 7)
  }

  /** Sequence numbers survive modulo eight, and an I-frame is never taken for a U-frame. */
  lemma IFrameControlReadsBack(sendSeq: Byte, recvSeq: Byte)
    ensures IFrameSeq(IFrameControl(sendSeq, recvSeq)) == (sendSeq & 7, recvSeq & 7)
    ensures IsIFrame(IFrameControl(sendSeq, recvSeq)) && !IsUFrame(IFrameControl(sendSeq, recvSeq))
  {
  }

  // ---- on the line ---------------------------------------------------------

  function AddressField(a: Byte): Byte { (a << 1) | 1 }

  lemma AddressOctet(a: Byte)
    ensures AddressField(a) == 2 * a + 1
  {
  }

  lemma BodyStarts(address: int, control: int, info: seq<Byte>)
    requires 0 <= address < 128
    ensures var b := Body(address, control, info);
      |b| == |info| + 2 && b[0] == AddressField(address as Byte) && b[1] == (control % 256) as Byte && b[2..] == info
  {
  }

  /** A frame on the line: a flag, twice the address plus one, the control byte, the
      information field, the check sequence with its low byte first, and a flag. */
  lemma FrameLayout(address: int, control: int, info: seq<Byte>)
    requires 0 <= address < 128
    ensures BuildHdlcFrame(address, control, info).Ok?
    ensures var f := BuildHdlcFrame(address, control, info).value; var n := |f|;
      && n == |info| + 6 && f[0] == 0x7E && f[n - 1] == 0x7E
      && f[1] == 2 * (address as Byte) + 1 && f[2] == (control % 256) as Byte && f[3..n - 3] == info
      && Word(f[n - 3], f[n - 2]) == Fcs(f[1..n - 3])
  {
    hide Fcs, Low, High, Word, Body, AddressField;
    var body := Body(address, control, info);
    AddressOctet(address as Byte);
    BodyStarts(address, control, info);
    WordOfHalves(Fcs(body));
    Inner(body, Low(Fcs(body)), High(Fcs(body)));
  }

  lemma CheckSteps()
    ensures Absorb(0xFFFF, 0x31) == 0x2F8D && Absorb(0x2F8D, 0x32) == 0x4D53 && Absorb(0x4D53, 0x33) == 0x634B
    ensures Absorb(0x634B, 0x34) == 0x8B13 && Absorb(0x8B13, 0x35) == 0x44BF && Absorb(0x44BF, 0x36) == 0x198D
    ensures Absorb(0x198D, 0x37) == 0x1AC8 && Absorb(0x1AC8, 0x38) == 0xF795 && Absorb(0xF795, 0x39) == 0x6F91
  {
  }

  /** The catalogued check value of this sequence: the digits 1 to 9 give 0x906E. */
  lemma CheckValue()
    ensures Fcs([0x31, 0x32, 0x33, 0x34, 0x35, 0x36, 0x37, 0x38, 0x39]) == 0x906E
  {
    var d: seq<Byte> := [0x31, 0x32, 0x33, 0x34, 0x35, 0x36, 0x37, 0x38, 0x39];
    hide Absorb, Register;
    CheckSteps();
    NoBytes(d);
    NextByte(d, 0);
    NextByte(d, 1);
    NextByte(d, 2);
    NextByte(d, 3);
    NextByte(d, 4);
    NextByte(d, 5);
    NextByte(d, 6);
    NextByte(d, 7);
    NextByte(d, 8);
    assert d[..9] == d;
  }

  lemma NoBytes(d: seq<Byte>)
    ensures Register(0xFFFF, d[..0]) == 0xFFFF
  {
  }

  lemma NextByte(d: seq<Byte>, i: nat)
    requires i < |d|
    ensures Register(0xFFFF, d[..i + 1]) == Absorb(Register(0xFFFF, d[..i]), d[i])
  {
    hide Absorb;
    assert d[..i + 1][..i] == d[..i];
  }

  /** The control byte of an I-frame: N(R) in the top three bits, N(S) in the three above
      a zero. */
  lemma IFrameControlLayout(sendSeq: Byte, recvSeq: Byte)
    ensures IFrameControl(sendSeq, recvSeq) as int == 32 * (recvSeq as int % 8) + 2 * (sendSeq as int % 8)
  {
    LowThree(sendSeq);
    LowThree(recvSeq);
    ThreeAndThree(sendSeq & 7, recvSeq & 7);
  }

  lemma LowThree(b: Byte)
    ensures (b & 7) as int == b as int % 8 && b & 7 < 8
  {
  }

  lemma ThreeAndThree(s: Byte, r: Byte)
    requires s < 8 && r < 8
    ensures ((r << 5) | (s << 1)) as int == 32 * (r as int) + 2 * (s as int)
  {
  }

  // ---- what reading collects -----------------------------------------------

  lemma {:induction false} SkipsToFlag(noise: seq<Byte>, rest: seq<Byte>)
    requires FLAG !in noise
    ensures Receive(noise + rest, false, []) == Receive(rest, false, [])
  {
    if noise == [] {
      assert noise + rest == rest;
    } else {
      assert (noise + rest)[1..] == noise[1..] + rest;
      SkipsToFlag(noise[1..], rest);
    }
  }

  lemma {:induction false} Collects(inner: seq<Byte>, rest: seq<Byte>, buf: seq<Byte>)
    requires FLAG !in inner
    ensures Receive(inner + rest, true, buf) == Receive(rest, true, buf + inner)
  {
    if inner == [] {
      assert inner + rest == rest && buf + inner == buf;
    } else {
      assert (inner + rest)[1..] == inner[1..] + rest;
      Collects(inner[1..], rest, buf + [inner[0]]);
      assert buf + [inner[0]] + inner[1..] == buf + inner;
    }
  }

  lemma AfterNoise(noise: seq<Byte>, inner: seq<Byte>, rest: seq<Byte>)
    requires FLAG !in noise && FLAG !in inner
    ensures Receive(noise + [FLAG] + inner + rest, false, []) == Receive(rest, true, inner)
  {
    hide Receive;
    assert noise + [FLAG] + inner + rest == noise + ([FLAG] + (inner + rest));
    SkipsToFlag(noise, [FLAG] + (inner + rest));
    FlagOpens(inner + rest);
    Collects(inner, rest, []);
    assert [] + inner == inner;
  }

  lemma AtFlag(inner: seq<Byte>, rest: seq<Byte>)
    ensures Receive([FLAG] + rest, true, inner)
      == if |inner| >= 3 then Ok([FLAG] + inner + [FLAG]) else Receive([FLAG] + rest, false, [])
    ensures Receive([], true, inner)
      == if |inner| >= 3 then Ok([FLAG] + inner + [FLAG]) else Err("no complete HDLC frame received")
    ensures Receive([], false, []).Err?
  {
    assert ([FLAG] + rest)[1..] == rest;
  }

  /** The reader drops what comes before the first flag; between flags, three bytes or
      more are the frame and fewer are skipped, so that the second flag opens the next
      frame; at the end of the stream three bytes or more still count as a frame. */
  lemma ReadsFirstRun(noise: seq<Byte>, inner: seq<Byte>, rest: seq<Byte>)
    requires FLAG !in noise && FLAG !in inner
    ensures |inner| >= 3 ==>
      Receive(noise + [FLAG] + inner + [FLAG] + rest, false, []) == Ok([FLAG] + inner + [FLAG])
    ensures |inner| < 3 ==>
      Receive(noise + [FLAG] + inner + [FLAG] + rest, false, []) == Receive([FLAG] + rest, false, [])
    ensures Receive(noise + [FLAG] + inner, false, [])
      == if |inner| >= 3 then Ok([FLAG] + inner + [FLAG]) else Err("no complete HDLC frame received")
    ensures Receive(noise, false, []).Err?
  {
    hide Receive;
    AfterNoise(noise, inner, [FLAG] + rest);
    AfterNoise(noise, inner, []);
    AtFlag(inner, rest);
    SkipsToFlag(noise, []);
    assert noise + [FLAG] + inner + ([FLAG] + rest) == noise + [FLAG] + inner + [FLAG] + rest;
    assert noise + [FLAG] + inner + [] == noise + [FLAG] + inner && noise + [] == noise;
  }

  lemma FlagOpens(rest: seq<Byte>)
    ensures Receive([FLAG] + rest, false, []) == Receive(rest, true, [])
  {
    assert ([FLAG] + rest)[1..] == rest;
  }
}
