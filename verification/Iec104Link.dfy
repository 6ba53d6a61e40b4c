/** Two IEC-104 peers joined by two byte streams that lose and reorder nothing. The
    receive loop reads a frame and answers it in two steps, and sends may fall between.
    `frames`, `sent`, `got` and `acked` are history: they record what happened and
    decide nothing. */
module Iec104Link {
  import opened Results
  import opened Iec104

  /** A frame under way, with the number of I-frames its sender had received. */
  datatype Frame = Frame(apdu: Apdu, acked: nat)

  datatype Channel = Channel(bytes: seq<Octet>, frames: seq<Frame>)

  datatype Peer = Peer(role: Role, counters: Counters, pending: Option<Apdu>, sent: nat, got: nat)

  datatype State = State(a: Peer, b: Peer, ab: Channel, ba: Channel)

  datatype Action = SendAsdu(asdu: seq<Octet>) | SendU(func: Octet) | Read | Handle

  datatype Move = Move(byA: bool, action: Action)

  const START_STATE: State := State(
    Peer(Controlling, Counters(0, 0), None, 0, 0), Peer(Controlled, Counters(0, 0), None, 0, 0),
    Channel([], []), Channel([], []))

  function Flip(s: State): State { State(s.b, s.a, s.ba, s.ab) }

  function Push(c: Channel, f: Frame): Channel
    requires Sendable(f.apdu)
  {
    Channel(c.bytes + Encode(f.apdu), c.frames + [f])
  }

  function Pop(c: Channel, rest: seq<Octet>): Channel {
    Channel(rest, if c.frames == [] then [] else c.frames[1..])
  }

  predicate InRange(p: Peer) { p.counters.ns < MODULUS && p.counters.nr < MODULUS }

  /** The reading end answers the frame it has read. */
  function Answered(s: State, apdu: Apdu): State
    requires InRange(s.a)
  {
    var p := s.a.(pending := None);
    match apdu
    case I(_, _, _) =>
      var p' := p.(counters := Acked(p.counters), got := p.got + 1);
      s.(a := p', ab := Push(s.ab, Frame(S(p'.counters.nr), p'.got)))
    case S(_) => s.(a := p)
    case U(func) =>
      RepliesAreUFrames(p.role, func);
      var reply := Reply(p.role, func);
      if reply.Some? then s.(a := p, ab := Push(s.ab, Frame(U(reply.value), p.got))) else s.(a := p)
  }

  /** A step of the end called `a`; an action that is not possible changes nothing. */
  function StepA(s: State, action: Action): State
    requires InRange(s.a)
  {
    var p := s.a;
    match action
    case SendAsdu(asdu) =>
      var apdu := I(p.counters.ns, p.counters.nr, asdu);
      if Sendable(apdu) then
        s.(a := p.(counters := Sent(p.counters), sent := p.sent + 1), ab := Push(s.ab, Frame(apdu, p.got)))
      else s
    case SendU(func) =>
      if Sendable(U(func)) then s.(ab := Push(s.ab, Frame(U(func), p.got))) else s
    case Read =>
      var r := ReadApdu(s.ba.bytes);
      if p.pending == None && r.Some? then
        s.(a := p.(pending := Some(r.value.0)), ba := Pop(s.ba, r.value.1))
      else s
    case Handle => if p.pending.Some? then Answered(s, p.pending.value) else s
  }

  function Step(s: State, m: Move): (s': State)
    requires InRange(s.a) && InRange(s.b)
    ensures InRange(s'.a) && InRange(s'.b)
  {
    if m.byA then StepA(s, m.action) else Flip(StepA(Flip(s), m.action))
  }

  function After(run: seq<Move>): (s: State)
    ensures InRange(s.a) && InRange(s.b)
  {
    if run == [] then START_STATE else Step(After(run[..|run| - 1]), run[|run| - 1])
  }

  // ---- what every run keeps ------------------------------------------------

  ghost function Apdus(frames: seq<Frame>): seq<Apdu> {
    seq(|frames|, i requires 0 <= i < |frames| => frames[i].apdu)
  }

  function CountI(frames: seq<Frame>): nat {
    if frames == [] then 0 else CountI(frames[..|frames| - 1]) + if frames[|frames| - 1].apdu.I? then 1 else 0
  }

  /** The I-frames under way carry the numbers `first`, `first + 1`, ... in order. */
  ghost predicate Numbered(frames: seq<Frame>, first: nat) {
    forall i :: 0 <= i < |frames| && frames[i].apdu.I? ==>
      frames[i].apdu.ns == (first + CountI(frames[..i])) % MODULUS
  }

  function Acknowledges(f: Frame): bool {
    match f.apdu
    case I(_, nr, _) => nr == f.acked % MODULUS
    case S(nr) => nr == f.acked % MODULUS
    case U(_) => true
  }

  /** Acknowledgements under way never go back and never pass what the sender received. */
  ghost predicate AcksInOrder(frames: seq<Frame>, got: nat) {
    && (forall i :: 0 <= i < |frames| ==> Acknowledges(frames[i]) && frames[i].acked <= got)
    && (forall i, j :: 0 <= i < j < |frames| ==> frames[i].acked <= frames[j].acked)
  }

  function Expected(q: Peer): nat {
    q.got + if q.pending.Some? && q.pending.value.I? then 1 else 0
  }

  /** Traffic from `p` to `q`. */
  ghost predicate Flow(p: Peer, c: Channel, q: Peer) {
    && (forall f :: f in c.frames ==> Sendable(f.apdu))
    && AllSendable(Apdus(c.frames)) && c.bytes == EncodeAll(Apdus(c.frames))
    && p.counters.ns == p.sent % MODULUS
    && q.counters.nr == q.got % MODULUS
    && Expected(q) + CountI(c.frames) == p.sent
    && Numbered(c.frames, Expected(q))
    && (q.pending.Some? && q.pending.value.I? ==> q.pending.value.ns == q.counters.nr)
    && AcksInOrder(c.frames, p.got)
  }

  ghost predicate Inv(s: State) {
    Flow(s.a, s.ab, s.b) && Flow(s.b, s.ba, s.a)
  }

  lemma NextMod(n: nat)
    ensures (n % MODULUS + 1) % MODULUS == (n + 1) % MODULUS
  {
  }

  lemma PushKeepsWire(c: Channel, f: Frame)
    requires AllSendable(Apdus(c.frames)) && c.bytes == EncodeAll(Apdus(c.frames)) && Sendable(f.apdu)
    ensures AllSendable(Apdus(Push(c, f).frames)) && Push(c, f).bytes == EncodeAll(Apdus(Push(c, f).frames))
  {
    assert Apdus(c.frames + [f]) == Apdus(c.frames) + [f.apdu];
    EncodeAllAppends(Apdus(c.frames), f.apdu);
  }

  lemma PushCounts(frames: seq<Frame>, f: Frame, first: nat)
    requires Numbered(frames, first)
    requires f.apdu.I? ==> f.apdu.ns == (first + CountI(frames)) % MODULUS
    ensures CountI(frames + [f]) == CountI(frames) + if f.apdu.I? then 1 else 0
    ensures Numbered(frames + [f], first)
  {
    var more := frames + [f];
    assert more[..|frames|] == frames;
    assert forall i :: 0 <= i < |frames| ==> more[..i] == frames[..i];
  }

  /** Whatever `p` sends next, the traffic to `q` stays in order. */
  lemma PushKeepsFlow(p: Peer, c: Channel, q: Peer, p': Peer, f: Frame)
    requires Flow(p, c, q) && Sendable(f.apdu) && Acknowledges(f)
    requires f.acked == p'.got >= p.got && p'.counters.ns == p'.sent % MODULUS
    requires if f.apdu.I? then f.apdu.ns == p.counters.ns && p'.sent == p.sent + 1 else p'.sent == p.sent
    ensures Flow(p', Push(c, f), q)
  {
    hide Sendable, EncodeAll, AllSendable, Numbered;
    PushKeepsWire(c, f);
    PushCounts(c.frames, f, Expected(q));
  }

  lemma {:induction false} CountITail(frames: seq<Frame>)
    requires frames != []
    ensures CountI(frames) == CountI(frames[1..]) + if frames[0].apdu.I? then 1 else 0
  {
    var k := |frames| - 1;
    if k == 0 {
      assert CountI(frames[..0]) == 0;
    } else {
      CountITail(frames[..k]);
      assert frames[..k][1..] == frames[1..][..k - 1];
    }
  }

  lemma TailCounts(frames: seq<Frame>, first: nat)
    requires frames != [] && Numbered(frames, first)
    ensures Numbered(frames[1..], first + if frames[0].apdu.I? then 1 else 0)
    ensures frames[0].apdu.I? ==> frames[0].apdu.ns == first % MODULUS
  {
    var tail := frames[1..];
    assert CountI(frames[..0]) == 0;
    forall i | 0 <= i < |tail| && tail[i].apdu.I?
      ensures tail[i].apdu.ns == (first + (if frames[0].apdu.I? then 1 else 0) + CountI(tail[..i])) % MODULUS
    {
      assert frames[..i + 1][1..] == tail[..i];
      CountITail(frames[..i + 1]);
      assert frames[i + 1] == tail[i];
    }
  }

  /** A waiting stream always yields its oldest frame, whole. */
  lemma WireHead(c: Channel)
    requires AllSendable(Apdus(c.frames)) && c.bytes == EncodeAll(Apdus(c.frames))
    ensures c.frames == [] <==> ReadApdu(c.bytes) == None
    ensures c.frames != [] ==> AllSendable(Apdus(c.frames[1..]))
    ensures c.frames != [] ==> ReadApdu(c.bytes) == Some((c.frames[0].apdu, EncodeAll(Apdus(c.frames[1..]))))
  {
    hide Sendable, ReadApdu, Encode;
    if c.frames == [] {
      EmptyReadsNothing();
    } else {
      assert Apdus(c.frames)[1..] == Apdus(c.frames[1..]);
      ReadsBack(Apdus(c.frames)[0], EncodeAll(Apdus(c.frames[1..])));
    }
  }

  /** Reading the oldest frame. */
  lemma PopKeepsFlow(p: Peer, c: Channel, q: Peer)
    requires Flow(p, c, q) && q.pending == None && c.frames != []
    ensures ReadApdu(c.bytes).Some? && ReadApdu(c.bytes).value.0 == c.frames[0].apdu
    ensures Flow(p, Pop(c, ReadApdu(c.bytes).value.1), q.(pending := Some(c.frames[0].apdu)))
  {
    hide Sendable, EncodeAll, AllSendable, Numbered, ReadApdu;
    WireHead(c);
    CountITail(c.frames);
    TailCounts(c.frames, q.got);
  }

  lemma NothingToRead(p: Peer, c: Channel, q: Peer)
    requires Flow(p, c, q) && c.frames == []
    ensures ReadApdu(c.bytes) == None
  {
    hide Sendable, EncodeAll, AllSendable, Numbered, ReadApdu;
    WireHead(c);
  }

  /** The receiving end counts the frame it has read, or lets it go. */
  lemma HandledKeepsFlow(p: Peer, c: Channel, q: Peer, q': Peer)
    requires Flow(p, c, q) && q.pending.Some? && q'.pending == None && q'.got == Expected(q)
    requires q'.counters.nr == if q.pending.value.I? then (q.counters.nr + 1) % MODULUS else q.counters.nr
    ensures Flow(p, c, q')
  {
    hide Sendable, EncodeAll, AllSendable, Numbered, AcksInOrder;
    NextMod(q.got);
  }

  /** What an end does as a receiver leaves its own traffic alone. */
  lemma SenderKeepsFlow(p: Peer, c: Channel, q: Peer, p': Peer)
    requires Flow(p, c, q) && p'.counters.ns == p.counters.ns && p'.sent == p.sent && p'.got == p.got
    ensures Flow(p', c, q)
  {
    hide Sendable, EncodeAll, AllSendable, Numbered, AcksInOrder;
  }

  /** What an end does as a sender leaves the traffic towards it alone. */
  lemma ReceiverKeepsFlow(p: Peer, c: Channel, q: Peer, q': Peer)
    requires Flow(p, c, q) && q'.counters.nr == q.counters.nr && q'.pending == q.pending && q'.got == q.got
    ensures Flow(p, c, q')
  {
    hide Sendable, EncodeAll, AllSendable, Numbered, AcksInOrder;
  }

  lemma ReadKeepsInv(s: State)
    requires Inv(s) && InRange(s.a)
    ensures Inv(StepA(s, Read))
  {
    hide Flow, ReadApdu;
    if s.a.pending == None {
      if s.ba.frames == [] {
        NothingToRead(s.b, s.ba, s.a);
      } else {
        PopKeepsFlow(s.b, s.ba, s.a);
        SenderKeepsFlow(s.a, s.ab, s.b, s.a.(pending := Some(s.ba.frames[0].apdu)));
      }
    }
  }

  lemma SendKeepsInv(s: State, apdu: Apdu, p': Peer)
    requires Inv(s) && Sendable(apdu) && p'.counters.nr == s.a.counters.nr
    requires p'.pending == s.a.pending && p'.got == s.a.got && Acknowledges(Frame(apdu, p'.got))
    requires if apdu.I? then apdu.ns == s.a.counters.ns && p'.counters == Sent(s.a.counters) && p'.sent == s.a.sent + 1
             else p' == s.a
    ensures Inv(s.(a := p', ab := Push(s.ab, Frame(apdu, p'.got))))
  {
    SendCounts(s.a, s.ab, s.b, apdu, p');
    hide Flow, Sendable, Push, Acknowledges;
    PushKeepsFlow(s.a, s.ab, s.b, p', Frame(apdu, p'.got));
    ReceiverKeepsFlow(s.b, s.ba, s.a, p');
  }

  lemma SendCounts(p: Peer, c: Channel, q: Peer, apdu: Apdu, p': Peer)
    requires Flow(p, c, q)
    requires if apdu.I? then p'.counters == Sent(p.counters) && p'.sent == p.sent + 1 else p' == p
    ensures p'.counters.ns == p'.sent % MODULUS
  {
    hide Sendable, EncodeAll, AllSendable, Numbered, AcksInOrder;
    NextMod(p.sent);
  }

  lemma OwnCounters(s: State)
    requires Inv(s)
    ensures s.a.counters.ns == s.a.sent % MODULUS && s.a.counters.nr == s.a.got % MODULUS
  {
    hide Sendable, EncodeAll, AllSendable, Numbered, AcksInOrder;
  }

  /** Dropping the frame that was read, after counting it if it was an I-frame. */
  lemma HandledKeepsInv(s: State, p': Peer)
    requires Inv(s) && s.a.pending.Some? && !s.a.pending.value.I? && p' == s.a.(pending := None)
    ensures Inv(s.(a := p'))
  {
    hide Flow;
    HandledKeepsFlow(s.b, s.ba, s.a, p');
    SenderKeepsFlow(s.a, s.ab, s.b, p');
  }

  lemma AnsweredI(s: State, apdu: Apdu, p': Peer)
    requires InRange(s.a) && apdu.I?
    requires p' == s.a.(pending := None, counters := Acked(s.a.counters), got := s.a.got + 1)
    ensures Sendable(S(p'.counters.nr))
    ensures Answered(s, apdu) == s.(a := p', ab := Push(s.ab, Frame(S(p'.counters.nr), p'.got)))
  {
  }

  lemma AckKeepsInv(s: State)
    requires Inv(s) && InRange(s.a) && s.a.pending.Some? && s.a.pending.value.I?
    ensures Inv(Answered(s, s.a.pending.value))
  {
    hide Flow, Push, Sendable, Encode, Answered;
    OwnCounters(s);
    NextMod(s.a.got);
    var p' := s.a.(pending := None, counters := Acked(s.a.counters), got := s.a.got + 1);
    AnsweredI(s, s.a.pending.value, p');
    HandledKeepsFlow(s.b, s.ba, s.a, p');
    PushKeepsFlow(s.a, s.ab, s.b, p', Frame(S(p'.counters.nr), p'.got));
  }

  lemma HandleKeepsInv(s: State)
    requires Inv(s) && InRange(s.a)
    ensures Inv(StepA(s, Handle))
  {
    hide Inv, Push, Sendable;
    if s.a.pending.Some? {
      match s.a.pending.value
      case I(_, _, _) => AckKeepsInv(s);
      case S(_) => HandledKeepsInv(s, s.a.(pending := None));
      case U(func) =>
        RepliesAreUFrames(s.a.role, func);
        var p := s.a.(pending := None);
        HandledKeepsInv(s, p);
        var reply := Reply(p.role, func);
        if reply.Some? { SendKeepsInv(s.(a := p), U(reply.value), p); }
    }
  }

  lemma SendActionKeepsInv(s: State, action: Action)
    requires Inv(s) && InRange(s.a) && (action.SendAsdu? || action.SendU?)
    ensures Inv(StepA(s, action))
  {
    hide Inv, Push, Sendable;
    OwnCounters(s);
    var p := s.a;
    match action
    case SendAsdu(asdu) =>
      var apdu := I(p.counters.ns, p.counters.nr, asdu);
      if Sendable(apdu) {
        SendKeepsInv(s, apdu, p.(counters := Sent(p.counters), sent := p.sent + 1));
      }
    case SendU(func) =>
      if Sendable(U(func)) { SendKeepsInv(s, U(func), p); }
  }

  lemma StepKeepsInv(s: State, m: Move)
    requires Inv(s) && InRange(s.a) && InRange(s.b)
    ensures Inv(Step(s, m))
  {
    hide Flow, StepA;
    var t := if m.byA then s else Flip(s);
    match m.action
    case SendAsdu(_) => SendActionKeepsInv(t, m.action);
    case SendU(_) => SendActionKeepsInv(t, m.action);
    case Read => ReadKeepsInv(t);
    case Handle => HandleKeepsInv(t);
  }

  lemma StartKeepsInv()
    ensures Inv(START_STATE)
  {
    hide Flow;
    FreshFlow(Controlling, Controlled);
    FreshFlow(Controlled, Controlling);
  }

  lemma FreshFlow(p: Role, q: Role)
    ensures Flow(Peer(p, Counters(0, 0), None, 0, 0), Channel([], []), Peer(q, Counters(0, 0), None, 0, 0))
  {
    hide Apdus, EncodeAll, AllSendable, Sendable, Encode;
    NothingUnderWay();
  }

  lemma NothingUnderWay()
    ensures AllSendable(Apdus([])) && EncodeAll(Apdus([])) == []
  {
    hide Sendable, Encode;
    assert Apdus([]) == [];
  }

  lemma {:induction false} RunsKeepInv(run: seq<Move>)
    ensures Inv(After(run))
  {
    hide Inv, Step, Flip;
    if run == [] {
      StartKeepsInv();
    } else {
      RunsKeepInv(run[..|run| - 1]);
      StepKeepsInv(After(run[..|run| - 1]), run[|run| - 1]);
    }
  }

  // ---- what that means -----------------------------------------------------

  /** In every run, the I-frame an end reads carries that end's own receive counter. */
  lemma ArrivesInSequence(run: seq<Move>)
    ensures var s := After(run);
      && (s.a.pending.Some? && s.a.pending.value.I? ==> s.a.pending.value.ns == s.a.counters.nr)
      && (s.b.pending.Some? && s.b.pending.value.I? ==> s.b.pending.value.ns == s.b.counters.nr)
  {
    hide Sendable, EncodeAll, AllSendable, Numbered, AcksInOrder;
    RunsKeepInv(run);
  }

  /** What waits for end `a` reads as a whole frame, and N(R) in it counts, modulo
      32768, I-frames that its sender has received and that end `a` has sent. */
  ghost predicate WaitingIsSound(s: State) {
    s.ba.bytes == [] || (
      && s.ba.frames != [] && ReadApdu(s.ba.bytes).Some?
      && s.ba.frames[0].apdu == ReadApdu(s.ba.bytes).value.0
      && Acknowledges(s.ba.frames[0]) && s.ba.frames[0].acked <= s.b.got <= s.a.sent)
  }

  lemma InvMeansSound(s: State)
    requires Inv(s)
    ensures WaitingIsSound(s)
  {
    hide Sendable, AllSendable, Numbered, ReadApdu;
    WireHead(s.ba);
    if s.ba.frames != [] {
      assert Acknowledges(s.ba.frames[0]);
    }
  }

  lemma AcknowledgesOnlyWhatWasSent(run: seq<Move>)
    ensures WaitingIsSound(After(run)) && WaitingIsSound(Flip(After(run)))
  {
    hide Flow, WaitingIsSound;
    RunsKeepInv(run);
    InvMeansSound(After(run));
    InvMeansSound(Flip(After(run)));
  }

  /** The machine's answer is the one that a peer's receive loop writes. */
  lemma AnswersAsPeer(s: State, apdu: Apdu)
    requires InRange(s.a)
    ensures Answered(s, apdu).ab.bytes == s.ab.bytes + Answer(s.a.role, s.a.counters, apdu)
    ensures Answered(s, apdu).a.counters == if apdu.I? then Acked(s.a.counters) else s.a.counters
  {
    hide Encode;
  }

  /** The N(R) of a frame, which a U-frame lacks. */
  function AckNumber(apdu: Apdu): Option<nat> {
    match apdu
    case I(_, nr, _) => Some(nr)
    case S(nr) => Some(nr)
    case U(_) => None
  }

  /** The I-frames end `a` has sent that the frame waiting for it does not acknowledge. */
  ghost function Outstanding(s: State): int
    requires s.ba.frames != []
  {
    s.a.sent - s.ba.frames[0].acked
  }

  /** What end `a` can work out for that number from N(R) and its own N(S). */
  function ReadOff(s: State, nr: nat): nat {
    (s.a.counters.ns - nr + MODULUS) % MODULUS
  }

  ghost predicate ReadsOff(s: State) {
    s.ba.bytes == [] || (
      && s.ba.frames != [] && ReadApdu(s.ba.bytes).Some? && Outstanding(s) >= 0
      && var nr := AckNumber(ReadApdu(s.ba.bytes).value.0);
        nr.Some? ==> (ReadOff(s, nr.value) == Outstanding(s) <==> Outstanding(s) < MODULUS))
  }

  lemma DifferenceOfRests(sent: nat, acked: nat)
    requires acked <= sent
    ensures (sent % MODULUS - acked % MODULUS + MODULUS) % MODULUS == (sent - acked) % MODULUS
  {
    var d := sent - acked;
    assert sent % MODULUS == (acked % MODULUS + d % MODULUS) % MODULUS;
  }

  lemma SoundReadsOff(s: State)
    requires Inv(s) && WaitingIsSound(s)
    ensures ReadsOff(s)
  {
    hide Inv, ReadApdu;
    OwnCounters(s);
    if s.ba.bytes != [] {
      DifferenceOfRests(s.a.sent, s.ba.frames[0].acked);
    }
  }

  /** In every run, the number of unacknowledged I-frames can be read off N(S) and the
      N(R) that waits exactly while there are fewer than 32768 of them; the code has no
      send window that would keep it so. */
  lemma OutstandingReadsOff(run: seq<Move>)
    ensures ReadsOff(After(run)) && ReadsOff(Flip(After(run)))
  {
    hide Flow, WaitingIsSound, ReadsOff;
    RunsKeepInv(run);
    InvMeansSound(After(run));
    InvMeansSound(Flip(After(run)));
    SoundReadsOff(After(run));
    SoundReadsOff(Flip(After(run)));
  }

  /** One I-frame towards `a`, then `k` from it. */
  function Burst(k: nat): seq<Move> {
    if k == 0 then [Move(false, SendAsdu([]))] else Burst(k - 1) + [Move(true, SendAsdu([]))]
  }

  lemma {:induction false} BurstLeaves(k: nat)
    ensures var s := After(Burst(k));
      && s.a.counters == Counters(k % MODULUS, 0) && s.a.sent == k && s.ba.frames == [Frame(I(0, 0, []), 0)]
  {
    hide Encode, ReadApdu, Answered;
    var run := Burst(k);
    if k == 0 {
      assert run[..0] == [] && After(run[..0]) == START_STATE;
    } else {
      BurstLeaves(k - 1);
      assert run[..|run| - 1] == Burst(k - 1);
      NextMod(k - 1);
    }
  }

  /** The window can be overrun: 32768 I-frames sent and none acknowledged, N(S) and
      N(R) agree and nothing seems outstanding. */
  lemma WindowOverrun()
    ensures var s := After(Burst(MODULUS));
      s.ba.frames != [] && s.ba.frames[0].apdu == I(0, 0, []) && Outstanding(s) == MODULUS && ReadOff(s, 0) == 0
  {
    hide *;
    BurstLeaves(MODULUS);
    OutstandingAfter(After(Burst(MODULUS)));
  }

  lemma OutstandingAfter(s: State)
    requires s.a.counters == Counters(MODULUS % MODULUS, 0) && s.a.sent == MODULUS
    requires s.ba.frames == [Frame(I(0, 0, []), 0)]
    ensures Outstanding(s) == MODULUS && ReadOff(s, 0) == 0
  {
  }
}
