/** Endpoint 0: over every interleaving, the data packets sent are those of the reply to the
    SETUP acknowledged last, from its first packet on, each at most once and never half
    built. */
module UsbControl {
  import opened Bytes
  import opened UsbMachine
  import opened UsbReceive
  import Crc16

  /** The PIDs of a control reply alternate from DATA1. */
  function Pid0(i: nat): byte {
    if i % 2 == 0 then DATA1 else DATA0
  }

  /** Packet `i` of a reply: eight bytes, or what is left. */
  function Piece(reply: seq<byte>, i: nat): (p: seq<byte>)
    requires 8 * i <= |reply|
    ensures |p| <= 8
  {
    reply[8 * i..Min(8 * i + 8, |reply|)]
  }

  /** What is left after `i` packets; after a packet shorter than eight bytes, no message. */
  function After(reply: seq<byte>, i: nat): Option<seq<byte>> {
    if 8 * i <= |reply| then Some(reply[8 * i..]) else None
  }

  /** A reply of `n` bytes is n / 8 + 1 packets: full ones, and a shorter last one. */
  lemma PacketsOfReply(reply: seq<byte>, i: nat)
    ensures After(reply, i) == None <==> i >= |reply| / 8 + 1
    ensures i < |reply| / 8 ==> |Piece(reply, i)| == 8
    ensures |Piece(reply, |reply| / 8)| == |reply| % 8
  {}

  /** The first `n` packets of a reply, put together. */
  function Joined(reply: seq<byte>, n: nat): seq<byte>
    requires n > 0 ==> 8 * (n - 1) <= |reply|
  {
    if n == 0 then [] else Joined(reply, n - 1) + Piece(reply, n - 1)
  }

  /** The packets concatenate to the reply. */
  lemma {:induction false} PacketsJoin(reply: seq<byte>, n: nat)
    requires n > 0 ==> 8 * (n - 1) <= |reply|
    ensures Joined(reply, n) == reply[..Min(8 * n, |reply|)]
    ensures n == |reply| / 8 + 1 ==> Joined(reply, n) == reply
  {
    if n > 0 {
      PacketsJoin(reply, n - 1);
      assert reply[..8 * (n - 1)] + Piece(reply, n - 1) == reply[..Min(8 * n, |reply|)];
    }
  }

  // -------------------------------------------------------------------- invariant

  predicate IsPacket(frame: seq<byte>, reply: seq<byte>, i: nat) {
    8 * i <= |reply| && frame == Frame(Pid0(i), Piece(reply, i))
  }

  /** A frame that was sent is a packet of the reply to the last SETUP acknowledged by then. */
  predicate RightPacket(e: Sent0, replies: seq<seq<byte>>) {
    0 <= e.reply < |replies| && e.reply + 1 == e.setups && IsPacket(e.frame, replies[e.reply], e.index)
  }

  /** Each reply is sent from its first packet on, none left out or repeated. */
  predicate Follows(sent: seq<Sent0>, i: nat)
    requires i < |sent|
  {
    if sent[i].index == 0 then i > 0 ==> sent[i - 1].reply < sent[i].reply
    else i > 0 && sent[i - 1].reply == sent[i].reply && sent[i - 1].index + 1 == sent[i].index
  }

  predicate Sent0Right(sent: seq<Sent0>, replies: seq<seq<byte>>) {
    forall i :: 0 <= i < |sent| ==> RightPacket(sent[i], replies) && Follows(sent, i)
  }

  /** `count` is the number of packets sent of the newest reply. */
  predicate Counted(sent: seq<Sent0>, replies: seq<seq<byte>>, count: nat) {
    var n, r := |sent|, |replies|;
    if count == 0 then n > 0 ==> sent[n - 1].reply < r - 1
    else n > 0 && sent[n - 1].reply == r - 1 && sent[n - 1].index + 1 == count
  }

  /** A SETUP is being processed and the endpoint is closed for it. */
  predicate Aborting(s: State) {
    s.pc.SetupNak? || s.pc.SetupReply? || (s.pc.Reading? && s.rx.token == PID_SETUP && s.pc.n == 8)
  }

  predicate Building(pc: Pc) {
    pc.TxToggle? || pc.TxCopy? || pc.TxCrc? || pc.TxReady?
  }

  /** How far the packet being built has come in the buffer. */
  predicate Built(s: State)
    requires s.Valid() && Building(s.pc)
  {
    var buf, c, chunk := s.tx0.buf, s.log.count, s.pc.chunk;
    match s.pc
    case TxToggle(_) => buf[0] == Pid0(c + 1)
    case TxCopy(_, i) => buf[0] == Pid0(c) && buf[1..1 + i] == chunk[..i]
    case TxCrc(_) => buf[0] == Pid0(c) && buf[1..1 + |chunk|] == chunk
    case TxReady(_) => buf[..|chunk| + 3] == Frame(Pid0(c), chunk)
  }

  /** The buffer and the rest of the message, for the newest reply. */
  predicate Current(s: State)
    requires s.Valid() && s.log.replies != []
  {
    var reply, c := s.log.replies[|s.log.replies| - 1], s.log.count;
    if !IsHandshake(s.tx0.len) then
      && !Building(s.pc) && 8 * c <= |reply| && s.tx0.len == |Piece(reply, c)| + 4
      && s.tx0.buf[..s.tx0.len - 1] == Frame(Pid0(c), Piece(reply, c)) && s.msg == After(reply, c + 1)
    else if Building(s.pc) then
      && 8 * c <= |reply| && s.pc.chunk == Piece(reply, c)
      && s.msg == Some(reply[8 * c + |s.pc.chunk|..]) && Built(s)
    else s.msg == After(reply, c) && s.tx0.buf[0] == Pid0(c + 1)
  }

  predicate Tx0Fits(s: State)
    requires s.Valid()
  {
    if Aborting(s) then s.tx0.buf[0] == DATA0 && (IsHandshake(s.tx0.len) || s.pc.SetupNak?)
    else if s.log.replies == [] then
      IsHandshake(s.tx0.len) && s.msg == None && s.log.count == 0 && !Building(s.pc)
    else Current(s)
  }

  predicate ControlInv(s: State) {
    && RxInv(s) && Tx0Fits(s)
    && Sent0Right(s.log.sent0, s.log.replies) && Counted(s.log.sent0, s.log.replies, s.log.count)
    && Setups(s.log.processed) == |s.log.replies| + if s.pc.SetupReply? then 1 else 0
  }

  // ----------------------------------------------------------------- small steps

  lemma Toggles(c: nat)
    ensures Toggle(Pid0(c + 1)) == Pid0(c)
  {}

  lemma SetupsAdd(ps: seq<Packet>, p: Packet)
    ensures Setups(ps + [p]) == Setups(ps) + if IsSetup(p) then 1 else 0
  {
    assert (ps + [p])[..|ps|] == ps;
  }

  lemma SendLogged(sent: seq<Sent0>, replies: seq<seq<byte>>, count: nat, e: Sent0)
    requires Sent0Right(sent, replies) && Counted(sent, replies, count) && RightPacket(e, replies)
    requires e.reply == |replies| - 1 && e.index == count
    ensures Sent0Right(sent + [e], replies) && Counted(sent + [e], replies, count + 1)
  {
    hide RightPacket;
    forall i | 0 <= i < |sent + [e]| ensures RightPacket((sent + [e])[i], replies) && Follows(sent + [e], i) {
      if i < |sent| {
        assert Follows(sent, i);
      }
    }
  }

  lemma ReplyLogged(sent: seq<Sent0>, replies: seq<seq<byte>>, count: nat, reply: seq<byte>)
    requires Sent0Right(sent, replies) && Counted(sent, replies, count)
    ensures Sent0Right(sent, replies + [reply]) && Counted(sent, replies + [reply], 0)
  {
    forall i | 0 <= i < |sent| ensures RightPacket(sent[i], replies + [reply]) && Follows(sent, i) {
      assert RightPacket(sent[i], replies);
    }
    if sent != [] {
      assert RightPacket(sent[|sent| - 1], replies);
    }
  }

  // ---------------------------------------------------------------- the interrupt

  lemma InKeepsControl(s: State, endpoint: byte)
    requires ControlInv(s)
    ensures ControlInv(HandleIn(s, endpoint).0)
  {
    hide RightPacket, Follows, Sent0Right, Counted, Frame, Piece, After, Setups;
    InKeepsRx(s, endpoint);
    if s.rx.len == 0 && endpoint == 0 && !IsHandshake(s.tx0.len) {
      assert s.log.acked == s.log.processed;
      var reply := s.log.replies[|s.log.replies| - 1];
      var e := Sent0(s.tx0.buf[..s.tx0.len - 1], |s.log.replies| - 1, s.log.count, Setups(s.log.acked));
      assert RightPacket(e, s.log.replies) by { IsRight(e, s.log.replies); }
      SendLogged(s.log.sent0, s.log.replies, s.log.count, e);
      FrameStarts(Pid0(s.log.count), Piece(reply, s.log.count));
      assert s.tx0.buf[0] == Pid0(s.log.count + 2);
    }
  }

  lemma IsRight(e: Sent0, replies: seq<seq<byte>>)
    requires 0 <= e.reply < |replies| && e.reply + 1 == e.setups && 8 * e.index <= |replies[e.reply]|
    requires e.frame == Frame(Pid0(e.index), Piece(replies[e.reply], e.index))
    ensures RightPacket(e, replies)
  {}

  lemma FrameStarts(pid: byte, data: seq<byte>)
    ensures Frame(pid, data)[0] == pid
  {}

  lemma DataKeepsControl(s: State, cnt: nat)
    requires ControlInv(s) && 1 <= cnt <= USB_BUFSIZE
    ensures ControlInv(HandleData(s, cnt).0)
  {
    hide RightPacket, Follows, Sent0Right, Counted, Frame, Piece, After, Setups, RxInv, IsHandshake;
    DataKeepsRx(s, cnt);
    NotProcessing(s);
  }

  lemma NotProcessing(s: State)
    requires RxInv(s)
    ensures s.Valid()
    ensures Processing(s.pc) ==> s.rx.len > 0
    ensures s.pc.SetupNak? ==> s.rx.token == PID_SETUP && s.pc.n == 8
  {}

  lemma ReceiverKeepsControl(s: State, raw: seq<byte>)
    requires ControlInv(s) && |raw| <= USB_BUFSIZE
    ensures ControlInv(Receiver(s, raw))
  {
    hide Frame, Piece, After, Pid0, Setups, Sent0Right, Counted, IsHandshake, RxInv, Splice;
    ReceiverKeepsRx(s, raw);
    NotProcessing(s);
  }

  lemma OtherKeepsControl(s: State, current: byte)
    requires ControlInv(s)
    ensures ControlInv(SetCurrent(s, current).0)
  {
    hide Frame, Piece, After, Pid0, Setups, Sent0Right, Counted, IsHandshake;
  }

  lemma InterruptKeepsControl(s: State, a: Arrival)
    requires ControlInv(s) && a.Valid()
    ensures ControlInv(Interrupt(s, a).0)
  {
    hide ControlInv, Classify, HandleIn, HandleData, SetCurrent, Receiver;
    ControlValid(s);
    ReceiverKeepsControl(s, a.raw);
    var r := Receiver(s, a.raw);
    match Classify(r.rx, a)
    case Other(current) => OtherKeepsControl(r, current);
    case Data => DataKeepsControl(r, |a.raw|);
    case In(endpoint) => InKeepsControl(r, endpoint);
  }

  lemma ControlValid(s: State)
    requires ControlInv(s)
    ensures s.Valid() && RxInv(s)
  {}

  // ------------------------------------------------------------- the main program

  lemma BuildKeepsControl(s: State)
    requires ControlInv(s) && InBuild(s.pc)
    ensures ControlInv(Build(s))
  {
    hide Sent0Right, Counted, Setups, RxInv, Tx0Fits, Build;
    BuildKeepsRx(s);
    NotProcessing(s);
    BuildFrame(s);
    match s.pc
    case TxTest => TestFits(s);
    case TxToggle(_) => ToggleFits(s);
    case TxCopy(_, _) => CopyFits(s);
    case TxCrc(_) => CrcFits(s);
    case TxReady(_) => ReadyFits(s);
  }

  /** What a building step leaves alone. */
  lemma BuildFrame(s: State)
    requires s.Valid() && InBuild(s.pc)
    ensures Build(s).log == s.log && !Build(s).pc.SetupReply?
  {}

  lemma TestFits(s: State)
    requires s.Valid() && Tx0Fits(s) && s.pc.TxTest?
    ensures Tx0Fits(Build(s))
  {
    hide Frame, IsHandshake;
  }

  lemma ToggleFits(s: State)
    requires s.Valid() && Tx0Fits(s) && s.pc.TxToggle?
    ensures Tx0Fits(Build(s))
  {
    hide Frame, IsHandshake, Toggle, Piece, After, Pid0;
    Toggles(s.log.count);
  }

  lemma CopyFits(s: State)
    requires s.Valid() && Tx0Fits(s) && s.pc.TxCopy?
    ensures Tx0Fits(Build(s))
  {
    hide Frame, IsHandshake, Piece, After, Pid0;
    var chunk, i, buf := s.pc.chunk, s.pc.i, s.tx0.buf;
    if i < |chunk| {
      assert buf[1 + i := chunk[i]][1..1 + i + 1] == buf[1..1 + i] + [chunk[i]];
    } else {
      assert chunk[..i] == chunk;
    }
  }

  lemma CrcFits(s: State)
    requires s.Valid() && Tx0Fits(s) && s.pc.TxCrc?
    ensures Tx0Fits(Build(s))
  {
    hide IsHandshake, Piece, After, Pid0, Crc16.Trailer;
    CrcCompletes(s.tx0.buf, |s.pc.chunk|);
  }

  lemma ReadyFits(s: State)
    requires s.Valid() && Tx0Fits(s) && s.pc.TxReady?
    ensures Tx0Fits(Build(s))
  {
    hide Frame, Pid0;
  }

  lemma SendKeepsControl(s: State)
    requires ControlInv(s) && InSend(s.pc)
    ensures ControlInv(Send(s))
  {
    hide Sent0Right, Counted, Setups, RxInv, IsHandshake, Frame, Piece, After, Pid0, Splice, Crc16.Trailer, Toggle;
    SendKeepsRx(s);
    NotProcessing(s);
  }

  lemma ReceiveKeepsControl(s: State, c: Choice)
    requires ControlInv(s) && c.Valid() && InReceive(s.pc)
    ensures ControlInv(Receive(s, c))
  {
    hide Sent0Right, Counted, Setups, RxInv, IsHandshake, Frame, Piece, After, Pid0, ResetToggling;
    ReceiveKeepsRx(s, c);
    NotProcessing(s);
    match s.pc
    case Reading(ptr, n, got) =>
      SetupsAdd(s.log.processed, Packet(s.rx.token, got));
    case SetupReply =>
      ReplyLogged(s.log.sent0, s.log.replies, s.log.count, c.reply);
      FirstIsAll(c.reply);
    case _ =>
  }

  lemma FirstIsAll(reply: seq<byte>)
    ensures After(reply, 0) == Some(reply) && Pid0(1) == DATA0
  {}

  lemma MainKeepsControl(s: State, c: Choice, guarded: bool)
    requires ControlInv(s) && c.Valid()
    ensures ControlInv(Main(s, c, guarded))
  {
    hide Build, Send, Receive, IsHandshake, Sent0Right, Counted, Setups, Frame, Piece, After, Pid0;
    MainKeepsRx(s, c, guarded);
    if InReceive(s.pc) {
      ReceiveKeepsControl(s, c);
    } else if InBuild(s.pc) {
      BuildKeepsControl(s);
    } else if InSend(s.pc) {
      SendKeepsControl(s);
    }
  }
}
