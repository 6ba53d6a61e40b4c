/** The APCI of IEC 60870-5-104 (section 5.1): frames on the wire and one end of a
    connection with its sequence counters. Bytes are integers below 256, as in the
    source, and masks and shifts of nonnegative integers are written arithmetically. */
module Iec104 {
  import opened Results

  type Octet = x: int | 0 <= x < 256

  const START: Octet := 0x68
  const MODULUS: nat := 32768
  const MAX_ASDU: nat := 251

  const STARTDT_ACT: Octet := 0x07
  const STARTDT_CON: Octet := 0x0B
  const STOPDT_ACT: Octet := 0x13
  const STOPDT_CON: Octet := 0x23
  const TESTFR_ACT: Octet := 0x43
  const TESTFR_CON: Octet := 0x83

  datatype Apdu = I(ns: nat, nr: nat, asdu: seq<Octet>) | S(nr: nat) | U(func: Octet)

  /** The control field of a 15-bit counter: seven bits above a zero, then eight more. */
  function Counter(n: nat): seq<Octet> {
    [(2 * n) % 256, (n / 128) % 256]
  }

  function CounterValue(lo: Octet, hi: Octet): nat {
    (lo + 256 * hi) / 2
  }

  /** The length byte counts the control field too; past its range building it raises. */
  function EncodeI(asdu: seq<Octet>, ns: nat, nr: nat): Result<seq<Octet>> {
    if |asdu| > MAX_ASDU then Err("bytes must be in range(0, 256)")
    else Ok([START, 4 + |asdu|] + Counter(ns) + Counter(nr) + asdu)
  }

  function EncodeS(nr: nat): seq<Octet> {
    [START, 4, 1, 0] + Counter(nr)
  }

  function EncodeU(func: Octet): seq<Octet> {
    [START, 4, func, 0, 0, 0]
  }

  /** One frame and what follows it, or nothing when the stream is short or out of step. */
  function ReadApdu(stream: seq<Octet>): (r: Option<(Apdu, seq<Octet>)>)
    ensures r.Some? ==> |r.value.1| < |stream|
  {
    if |stream| < 2 || stream[0] != START then None
    else
      var length: int := stream[1];
      if |stream| < 2 + length || length < 4 then None
      else
        var control, asdu, rest := stream[2..6], stream[6..2 + length], stream[2 + length..];
        if control[0] % 2 == 0 then
          Some((I(CounterValue(control[0], control[1]), CounterValue(control[2], control[3]), asdu), rest))
        else if control[0] % 4 == 1 then Some((S(CounterValue(control[2], control[3])), rest))
        else Some((U(control[0]), rest))
  }

  lemma LowSeven(q: nat, r: nat)
    requires r < 128
    ensures (2 * (128 * q + r)) % 256 == 2 * r && (128 * q + r) / 128 == q
  {
  }

  lemma HighEight(k: nat, h: nat, r: nat)
    requires h < 256 && r < 128
    ensures (128 * (256 * k + h) + r) % MODULUS == 128 * h + r
  {
  }

  lemma CounterReadsBack(n: nat)
    ensures CounterValue(Counter(n)[0], Counter(n)[1]) == n % MODULUS
    ensures Counter(n)[0] % 2 == 0
  {
    var q, r := n / 128, n % 128;
    LowSeven(q, r);
    HighEight(q / 256, q % 256, r);
  }

  /** An I-frame is built exactly for payloads that fit its length byte, and reads back
      with its counters modulo 32768, whatever follows it. */
  lemma IReadsBack(asdu: seq<Octet>, ns: nat, nr: nat, rest: seq<Octet>)
    ensures EncodeI(asdu, ns, nr).Ok? <==> |asdu| <= MAX_ASDU
    ensures |asdu| <= MAX_ASDU ==>
      ReadApdu(EncodeI(asdu, ns, nr).value + rest) == Some((I(ns % MODULUS, nr % MODULUS, asdu), rest))
  {
    if |asdu| <= MAX_ASDU {
      CounterReadsBack(ns);
      CounterReadsBack(nr);
      hide CounterValue;
      var a, b := Counter(ns), Counter(nr);
      var s := EncodeI(asdu, ns, nr).value + rest;
      assert s[2..6] == a + b;
      assert s[6..6 + |asdu|] == asdu;
      assert s[6 + |asdu|..] == rest;
    }
  }

  lemma SReadsBack(nr: nat, rest: seq<Octet>)
    ensures ReadApdu(EncodeS(nr) + rest) == Some((S(nr % MODULUS), rest))
  {
    CounterReadsBack(nr);
    hide CounterValue;
    var s := EncodeS(nr) + rest;
    assert s[2..6] == [1, 0] + Counter(nr);
    assert s[6..] == rest;
  }

  /** A U-frame reads back exactly when its function code has both low bits set. */
  lemma UReadsBack(func: Octet, rest: seq<Octet>)
    ensures ReadApdu(EncodeU(func) + rest) == Some((U(func), rest)) <==> func % 4 == 3
  {
    var s := EncodeU(func) + rest;
    assert s[2..6] == [func, 0, 0, 0];
    assert s[6..] == rest;
  }

  // ---- streams of frames ---------------------------------------------------

  predicate Sendable(a: Apdu) {
    match a
    case I(ns, nr, asdu) => ns < MODULUS && nr < MODULUS && |asdu| <= MAX_ASDU
    case S(nr) => nr < MODULUS
    case U(func) => func % 4 == 3
  }

  function Encode(a: Apdu): seq<Octet>
    requires Sendable(a)
  {
    match a
    case I(ns, nr, asdu) => EncodeI(asdu, ns, nr).value
    case S(nr) => EncodeS(nr)
    case U(func) => EncodeU(func)
  }

  lemma ReadsBack(a: Apdu, rest: seq<Octet>)
    requires Sendable(a)
    ensures ReadApdu(Encode(a) + rest) == Some((a, rest))
  {
    hide ReadApdu, EncodeI, EncodeS, EncodeU;
    match a
    case I(ns, nr, asdu) => IReadsBack(asdu, ns, nr, rest);
    case S(nr) => SReadsBack(nr, rest);
    case U(func) => UReadsBack(func, rest);
  }

  ghost predicate AllSendable(frames: seq<Apdu>) {
    forall a :: a in frames ==> Sendable(a)
  }

  ghost function EncodeAll(frames: seq<Apdu>): seq<Octet>
    requires AllSendable(frames)
  {
    if frames == [] then [] else Encode(frames[0]) + EncodeAll(frames[1..])
  }

  function ReadAll(stream: seq<Octet>): seq<Apdu>
    decreases |stream|
  {
    match ReadApdu(stream)
    case None => []
    case Some((a, rest)) => [a] + ReadAll(rest)
  }

  /** Any run of frames, one after another on the stream, reads back as it was sent. */
  lemma {:induction false} RunReadsBack(frames: seq<Apdu>)
    requires AllSendable(frames)
    ensures ReadAll(EncodeAll(frames)) == frames
  {
    hide ReadApdu, Encode;
    if frames == [] {
      EmptyReadsNothing();
    } else {
      ReadsBack(frames[0], EncodeAll(frames[1..]));
      RunReadsBack(frames[1..]);
    }
  }

  lemma EmptyReadsNothing()
    ensures ReadApdu([]) == None
  {
  }

  lemma {:induction false} EncodeAllAppends(frames: seq<Apdu>, a: Apdu)
    requires AllSendable(frames) && Sendable(a)
    ensures EncodeAll(frames + [a]) == EncodeAll(frames) + Encode(a)
  {
    hide Encode, Sendable;
    if frames == [] {
      assert EncodeAll([a]) == Encode(a) + EncodeAll([a][1..]);
    } else {
      assert (frames + [a])[1..] == frames[1..] + [a];
      EncodeAllAppends(frames[1..], a);
    }
  }

  /** Two bytes, the low one first. */
  function Pair(lo: Octet, hi: Octet): int {
    var l: int, h: int := lo, hi;
    l + 256 * h
  }

  /** What is on the line: 0x68, the length of what follows, and four control bytes. An
      I-frame carries twice its counters, N(S) then N(R), each with the low byte first; an
      S-frame 1, 0 and twice N(R); a U-frame its function code and three zeros. */
  lemma WireLayout(a: Apdu)
    requires Sendable(a)
    ensures var w := Encode(a);
      && |w| >= 6 && w[0] == 0x68 && w[1] == |w| - 2
      && (a.I? ==> Pair(w[2], w[3]) == 2 * a.ns && Pair(w[4], w[5]) == 2 * a.nr && w[6..] == a.asdu)
      && (a.S? ==> |w| == 6 && w[2] == 1 && w[3] == 0 && Pair(w[4], w[5]) == 2 * a.nr)
      && (a.U? ==> w == [0x68, 4, a.func, 0, 0, 0])
  {
    match a
    case I(ns, nr, asdu) =>
      CounterBytes(ns);
      CounterBytes(nr);
    case S(nr) => CounterBytes(nr);
    case U(_) =>
  }

  /** Every payload whose length still fits the length byte is built, and no other. */
  lemma LengthFits(asdu: seq<Octet>, ns: nat, nr: nat)
    ensures EncodeI(asdu, ns, nr).Ok? <==> 4 + |asdu| <= 255
  {
    hide Counter;
  }

  lemma CounterBytes(n: nat)
    requires n < MODULUS
    ensures |Counter(n)| == 2 && Pair(Counter(n)[0], Counter(n)[1]) == 2 * n
  {
    var q, r := n / 128, n % 128;
    assert n == 128 * q + r && q < 256;
    assert (2 * n) % 256 == 2 * r by { LowSeven(q, r); }
  }

  // ---- one end of a connection ---------------------------------------------
  datatype Counters = Counters(ns: nat, nr: nat)

  function Sent(c: Counters): Counters { c.(ns := (c.ns + 1) % MODULUS) }

  function Acked(c: Counters): Counters { c.(nr := (c.nr + 1) % MODULUS) }

  datatype Role = Controlling | Controlled

  /** What the receive loop answers to a U-frame. */
  function Reply(role: Role, func: Octet): Option<Octet> {
    if func == TESTFR_ACT then Some(TESTFR_CON)
    else if role == Controlled && func == STARTDT_ACT then Some(STARTDT_CON)
    else if role == Controlled && func == STOPDT_ACT then Some(STOPDT_CON)
    else None
  }

  lemma RepliesAreUFrames(role: Role, func: Octet)
    ensures Reply(role, func).Some? ==> Sendable(U(Reply(role, func).value))
  {
  }

  class Iec104Peer {
    const role: Role
    var ns: nat
    var nr: nat
    var out: seq<Octet>

    function View(): Counters
      reads this
    {
      Counters(ns, nr)
    }

    constructor (role: Role)
      ensures this.role == role && View() == Counters(0, 0) && out == []
    {
      this.role := role;
      ns, nr, out := 0, 0, [];
    }

    /** The frame is built before the counter moves, so a payload that is too long
        leaves everything as it was. */
    method SendAsdu(asdu: seq<Octet>) returns (ok: bool)
      requires ns < MODULUS && nr < MODULUS
      modifies this
      ensures ok <==> Sendable(I(old(ns), old(nr), asdu))
      ensures ok ==> View() == Sent(old(View())) && out == old(out) + Encode(I(old(ns), old(nr), asdu))
      ensures !ok ==> View() == old(View()) && out == old(out)
    {
      var frame := EncodeI(asdu, ns, nr);
      if frame.Err? {
        return false;
      }
      ns := (ns + 1) % MODULUS;
      out := out + frame.value;
      return true;
    }

    method SendU(func: Octet)
      modifies this`out
      ensures out == old(out) + EncodeU(func)
    {
      out := out + EncodeU(func);
    }

    method AckReceived()
      requires ns < MODULUS && nr < MODULUS
      modifies this
      ensures View() == Acked(old(View())) && nr < MODULUS
      ensures out == old(out) + Encode(S(Acked(old(View())).nr))
    {
      nr := (nr + 1) % MODULUS;
      out := out + EncodeS(nr);
    }

    /** One turn of the receive loop, once a frame has been read. */
    method Handle(apdu: Apdu)
      requires ns < MODULUS && nr < MODULUS
      modifies this
      ensures View() == if apdu.I? then Acked(old(View())) else old(View())
      ensures out == old(out) + Answer(role, old(View()), apdu)
    {
      match apdu
      case I(_, _, _) => AckReceived();
      case S(_) =>
      case U(func) =>
        var reply := Reply(role, func);
        if reply.Some? {
          SendU(reply.value);
        }
    }
  }

  function Answer(role: Role, c: Counters, apdu: Apdu): seq<Octet> {
    match apdu
    case I(_, _, _) => Encode(S(Acked(c).nr))
    case S(_) => []
    case U(func) =>
      RepliesAreUFrames(role, func);
      if Reply(role, func).Some? then Encode(U(Reply(role, func).value)) else []
  }

  /** A test frame is confirmed at both ends, start and stop at the controlled one, an
      I-frame by the next N(R), and nothing else is answered. */
  lemma AnswersMean(role: Role, c: Counters, apdu: Apdu)
    requires c.nr < MODULUS
    ensures apdu == U(0x43) ==> Answer(role, c, apdu) == EncodeU(0x83)
    ensures apdu == U(0x07) && role == Controlled ==> Answer(role, c, apdu) == EncodeU(0x0B)
    ensures apdu == U(0x13) && role == Controlled ==> Answer(role, c, apdu) == EncodeU(0x23)
    ensures apdu.I? ==> Answer(role, c, apdu) == EncodeS(if c.nr == 32767 then 0 else c.nr + 1)
    ensures Answer(role, c, apdu) == [] <==>
      !apdu.I? && apdu != U(0x43) && (role == Controlled ==> apdu != U(0x07) && apdu != U(0x13))
  {
    hide EncodeS, EncodeU, Counter, EncodeI;
    FramesAreLong(if c.nr == 32767 then 0 else c.nr + 1);
  }

  lemma FramesAreLong(nr: nat)
    ensures |EncodeS(nr)| == 6 && forall func: Octet :: |EncodeU(func)| == 6
  {
  }
}
