/** What is seen on the bus: which packets get which answer, byte for byte, and that the
    histories of UsbMachine are what the bus saw. */
module Wire {
  import opened Bytes
  import opened UsbMachine
  import opened UsbReceive
  import opened UsbControl
  import opened UsbBulkIn
  import opened UsbRuns
  import Crc16

  // ----------------------------------------------------------------- packet formats

  /** The packet identifiers: the type in the low nibble, its complement in the high one
      (section 8.3.1 and table 8-1 of USB 2.0). */
  function Pid(kind: bv8): byte
    requires kind < 16
  {
    ((15 - kind) << 4) | kind
  }

  lemma Identifiers()
    ensures PID_OUT == Pid(1) && PID_IN == Pid(9) && PID_SETUP == Pid(13)
    ensures DATA0 == Pid(3) && DATA1 == Pid(11)
    ensures ACK == Pid(2) as int && NAK == Pid(10) as int
  {}

  /** A token packet: identifier, seven bits of address, four of endpoint, five of CRC, least
      significant bits first (section 8.4.1). */
  predicate IsToken(raw: seq<byte>, pid: byte, endpoint: byte) {
    && |raw| == 3 && raw[0] == pid && endpoint < 16
    && raw[1] >> 7 == endpoint & 1 && raw[2] & 7 == endpoint >> 1
  }

  lemma EndpointIs(second: byte, third: byte, endpoint: byte)
    requires endpoint < 16 && second >> 7 == endpoint & 1 && third & 7 == endpoint >> 1
    ensures Endpoint(second, third) == endpoint
  {}

  predicate IsData(a: Arrival) {
    a.raw != [] && !a.overflow && (a.raw[0] == Pid(3) || a.raw[0] == Pid(11))
  }

  /** The data of a data packet, without identifier and CRC. */
  function DataIn(raw: seq<byte>): seq<byte> {
    if |raw| < 3 then [] else raw[1..|raw| - 2]
  }

  // --------------------------------------------------------------- data from the host

  /** A data packet is acknowledged if and only if a token announced it and the receive buffer
      is free, refused if and only if a token announced it and the buffer is taken, and passed
      over otherwise. With data in it, the acknowledged packet, and no other, is stored, with
      its own bytes, for the endpoint of the token. */
  lemma DataAnswered(s: State, a: Arrival)
    requires s.Valid() && a.Valid() && IsData(a)
    ensures
      var (r, answer) := Interrupt(s, a);
      && (answer == Handshake(0xd2) <==> s.rx.currentTok != 0 && s.rx.len == 0)
      && (answer == Handshake(0x5a) <==> s.rx.currentTok != 0 && s.rx.len != 0)
      && (answer == Silence <==> s.rx.currentTok == 0)
      && r.rx.currentTok == s.rx.currentTok
      && if answer == Handshake(0xd2) && |a.raw| >= 4 then
           && r.log.acked == s.log.acked + [Packet(s.rx.currentTok, DataIn(a.raw))]
           && r.rx.len == |a.raw| && r.rx.token == s.rx.currentTok && r.rx.Stored() == DataIn(a.raw)
         else r.log.acked == s.log.acked && r.rx.len == s.rx.len
  {
    hide Endpoint, Setups, Splice, IsHandshake;
    if |a.raw| >= 3 {
      SpliceRead(s.rx.buf, s.rx.offset, a.raw, 1, |a.raw| - 2);
    }
  }

  // ---------------------------------------------------------------------- tokens

  lemma TokenStored(s: State, a: Arrival)
    requires s.Valid() && a.Valid() && |a.raw| == 3
    ensures
      var rx := Receiver(s, a.raw).rx;
      rx.buf[rx.offset + 1] == a.raw[1] && rx.buf[rx.offset + 2] == a.raw[2]
  {}

  lemma TokenKind(s: State, a: Arrival, pid: byte, endpoint: byte)
    requires s.Valid() && a.Valid() && !a.overflow && IsToken(a.raw, pid, endpoint)
    requires pid != DATA0 && pid != DATA1
    ensures
      Classify(Receiver(s, a.raw).rx, a) ==
      if !a.mine then Other(0)
      else if pid == PID_IN then In(endpoint)
      else if pid == PID_SETUP || pid == PID_OUT then Other(if endpoint == 0 then pid else endpoint)
      else Other(0)
  {
    hide Endpoint, Splice;
    TokenStored(s, a);
    EndpointIs(a.raw[1], a.raw[2], endpoint);
  }

  /** SETUP and OUT announce the data that follows; a token for another device, or of any other
      kind, calls it off. None of them is answered. */
  lemma TokenAnnounces(s: State, a: Arrival, pid: byte, endpoint: byte)
    requires s.Valid() && a.Valid() && !a.overflow && IsToken(a.raw, pid, endpoint)
    requires pid != Pid(3) && pid != Pid(11) && !(a.mine && pid == Pid(9))
    ensures
      var (r, answer) := Interrupt(s, a);
      && answer == Silence && r.log == s.log && r.tx0 == s.tx0 && r.tx1 == s.tx1 && r.rx.len == s.rx.len
      && r.rx.currentTok ==
         if a.mine && (pid == Pid(13) || pid == Pid(1)) then if endpoint == 0 then pid else endpoint
         else 0
  {
    Identifiers();
    TokenKind(s, a, pid, endpoint);
    hide Classify, Splice, Pid;
  }

  /** A packet too long for the buffer, a token for another device and a packet that is neither
      data nor a token get no answer, and call off the data announced. */
  lemma OthersIgnored(s: State, a: Arrival)
    requires s.Valid() && a.Valid() && !IsData(a)
    requires a.overflow || !a.mine || a.raw[0] !in {Pid(1), Pid(9), Pid(13)}
    ensures
      var (r, answer) := Interrupt(s, a);
      && answer == Silence && r.rx.currentTok == 0 && r.rx.len == s.rx.len
      && r.log == s.log && r.tx0 == s.tx0 && r.tx1 == s.tx1
  {
    Identifiers();
    hide Endpoint, Splice, Pid;
  }

  /** A packet waits on endpoint 0; on endpoint 1. */
  predicate Waits0(s: State) {
    !IsHandshake(s.tx0.len)
  }

  predicate Waits1(s: State) {
    !IsHandshake(s.tx1.len)
  }

  /** An IN token for this device gets the packet that waits on its endpoint, if and only if
      one waits and the receive buffer is free; then nothing waits there any more. Otherwise it
      gets a handshake. */
  lemma InAnswered(s: State, a: Arrival, endpoint: byte)
    requires s.Valid() && a.Valid() && !a.overflow && a.mine && IsToken(a.raw, Pid(9), endpoint)
    ensures
      var (r, answer) := Interrupt(s, a);
      && (answer.Data0? <==> endpoint == 0 && s.rx.len == 0 && Waits0(s))
      && (answer.Data1? <==> endpoint != 0 && s.rx.len == 0 && Waits1(s))
      && (answer.Data0? ==> answer == Data0(s.tx0.buf[..s.tx0.len - 1]))
      && (answer.Data1? ==> answer == Data1(s.tx1.buf[..s.tx1.len - 1]))
      && answer != Silence && (s.rx.len != 0 ==> answer == Handshake(0x5a))
      && r.rx.len == s.rx.len && r.rx.currentTok == s.rx.currentTok
      && (Waits0(r) <==> Waits0(s) && !answer.Data0?) && (Waits1(r) <==> Waits1(s) && !answer.Data1?)
  {
    Identifiers();
    TokenKind(s, a, PID_IN, endpoint);
    hide Classify, Splice, Pid, Setups;
  }

  // ------------------------------------------------------- the histories are the bus's

  /** Whatever arrives: a data packet on the bus is the one entry that the history of its
      endpoint grows by, and no other answer touches the histories. */
  lemma AnswerIsLogged(s: State, a: Arrival)
    requires s.Valid() && a.Valid()
    ensures
      var (r, answer) := Interrupt(s, a);
      && (if answer.Data0? then
            |r.log.sent0| == |s.log.sent0| + 1 && r.log.sent0[..|s.log.sent0|] == s.log.sent0
            && r.log.sent0[|s.log.sent0|].frame == answer.frame
          else r.log.sent0 == s.log.sent0)
      && (if answer.Data1? then
            |r.log.sent1| == |s.log.sent1| + 1 && r.log.sent1[..|s.log.sent1|] == s.log.sent1
            && r.log.sent1[|s.log.sent1|].frame == answer.frame
          else r.log.sent1 == s.log.sent1)
      && (|r.log.sent0| > |s.log.sent0| <==> answer.Data0?) && (|r.log.sent1| > |s.log.sent1| <==> answer.Data1?)
  {
    hide Classify, Splice, Setups, IsHandshake, Rx.Valid;
  }

  /** In every state that can be reached, a frame on the bus is whole: on endpoint 1 the packet
      of the last call; on endpoint 0 the next packet of the newest reply. */
  lemma AnswerIsWhole(s: State, a: Arrival)
    requires ControlInv(s) && BulkInv(s) && a.Valid()
    ensures
      var (r, answer) := Interrupt(s, a);
      && (answer.Data1? ==>
            && s.log.loaded != [] && answer.frame != []
            && answer.frame == Frame(answer.frame[0], s.log.loaded[|s.log.loaded| - 1]))
      && (answer.Data0? ==>
            && s.log.replies != []
            && IsPacket(answer.frame, s.log.replies[|s.log.replies| - 1], s.log.count))
  {
    hide ControlInv, BulkInv, Interrupt, Frame, IsPacket;
    InvsValid(s);
    var (r, answer) := Interrupt(s, a);
    InterruptKeepsControl(s, a);
    InterruptKeepsBulk(s, a);
    AnswerIsLogged(s, a);
    LastEntries(s, a);
    if answer.Data1? {
      LastWhole1(r);
    }
    if answer.Data0? {
      LastWhole0(r);
    }
  }

  lemma InvsValid(s: State)
    requires BulkInv(s)
    ensures s.Valid()
  {}

  lemma LastEntries(s: State, a: Arrival)
    requires s.Valid() && a.Valid()
    ensures
      var (r, answer) := Interrupt(s, a);
      && r.log.loaded == s.log.loaded && r.log.replies == s.log.replies
      && (answer.Data0? ==>
            r.log.sent0[|r.log.sent0| - 1].reply == |s.log.replies| - 1
            && r.log.sent0[|r.log.sent0| - 1].index == s.log.count)
      && (answer.Data1? ==> r.log.sent1[|r.log.sent1| - 1].load == |s.log.loaded| - 1)
  {
    hide Classify, Splice, Setups, IsHandshake, Rx.Valid;
  }

  lemma LastWhole1(r: State)
    requires BulkInv(r) && r.log.sent1 != []
    ensures
      var e := r.log.sent1[|r.log.sent1| - 1];
      0 <= e.load < |r.log.loaded| && e.frame != [] && e.frame == Frame(e.frame[0], r.log.loaded[e.load])
  {}

  lemma LastWhole0(r: State)
    requires ControlInv(r) && r.log.sent0 != []
    ensures RightPacket(r.log.sent0[|r.log.sent0| - 1], r.log.replies)
  {
    hide RightPacket;
  }

  /** A frame passes the check of any receiver: what follows the identifier has the residue of
      CRC-16 (section 8.3.5.2). */
  lemma FramePasses(pid: byte, data: seq<byte>)
    ensures Crc16.Crc(Frame(pid, data)[1..]) == 0x4ffe
    ensures DataIn(Frame(pid, data)) == data
  {
    hide Crc16.Crc, Crc16.Trailer;
    var f := Frame(pid, data);
    assert f[1..] == data + Crc16.Trailer(data);
    Crc16.TrailerIffResidue(data, Crc16.Trailer(data));
  }

  // ------------------------------------------------------------------- whole runs

  /** All answers of a run, in order. */
  function Answers(s: State, es: seq<Event>, guarded: bool): seq<Answer>
    requires s.Valid() && ValidEvents(es)
    decreases |es|
  {
    if es == [] then []
    else
      RunSplits(es);
      var n := |es| - 1;
      Answers(s, es[..n], guarded)
      + if es[n].Bus? then [Interrupt(Run(s, es[..n], guarded), es[n].arrival).1] else []
  }

  /** The data packets with data that the device acknowledged, each for the endpoint of the
      token before it. */
  function Accepted(s: State, es: seq<Event>, guarded: bool): seq<Packet>
    requires s.Valid() && ValidEvents(es)
    decreases |es|
  {
    if es == [] then []
    else
      RunSplits(es);
      var n := |es| - 1;
      Accepted(s, es[..n], guarded)
      + if es[n].Bus? then AcceptedNow(Run(s, es[..n], guarded), es[n].arrival) else []
  }

  function AcceptedNow(s: State, a: Arrival): (ps: seq<Packet>)
    requires s.Valid() && a.Valid()
    ensures |ps| <= 1
  {
    if IsData(a) && |a.raw| >= 4 && Interrupt(s, a).1 == Handshake(0xd2) then [Packet(s.rx.currentTok, DataIn(a.raw))]
    else []
  }

  /** The frames the host received on endpoint 0; on endpoint 1. */
  function Frames0(answers: seq<Answer>): seq<seq<byte>> {
    if answers == [] then []
    else
      var n := |answers| - 1;
      Frames0(answers[..n]) + if answers[n].Data0? then [answers[n].frame] else []
  }

  function Frames1(answers: seq<Answer>): seq<seq<byte>> {
    if answers == [] then []
    else
      var n := |answers| - 1;
      Frames1(answers[..n]) + if answers[n].Data1? then [answers[n].frame] else []
  }

  lemma FramesAdd(answers: seq<Answer>, more: Answer)
    ensures Frames0(answers + [more]) == Frames0(answers) + if more.Data0? then [more.frame] else []
    ensures Frames1(answers + [more]) == Frames1(answers) + if more.Data1? then [more.frame] else []
  {
    assert (answers + [more])[..|answers|] == answers;
  }

  /** The histories of a run show what the bus saw. */
  predicate Shows(log: Log, answers: seq<Answer>, accepted: seq<Packet>) {
    && |log.sent0| == |Frames0(answers)| && |log.sent1| == |Frames1(answers)|
    && (forall i :: 0 <= i < |log.sent0| ==> log.sent0[i].frame == Frames0(answers)[i])
    && (forall i :: 0 <= i < |log.sent1| ==> log.sent1[i].frame == Frames1(answers)[i])
    && log.acked == accepted
  }

  lemma MainLogsNothing(s: State, c: Choice, guarded: bool)
    requires s.Valid() && c.Valid()
    ensures
      var log := Main(s, c, guarded).log;
      log.sent0 == s.log.sent0 && log.sent1 == s.log.sent1 && log.acked == s.log.acked
  {
    hide Splice, Toggle, IsHandshake, Crc16.Trailer;
  }

  /** What the host is acknowledged is what is stored, for any packet on the bus. */
  lemma AcceptedIsStored(s: State, a: Arrival)
    requires s.Valid() && a.Valid()
    ensures Interrupt(s, a).0.log.acked == s.log.acked + AcceptedNow(s, a)
  {
    hide Interrupt, Pid;
    Identifiers();
    AckMeansStored(s, a);
    assert s.log.acked + [] == s.log.acked;
  }

  lemma ShowsNext(s: State, a: Arrival, answers: seq<Answer>, accepted: seq<Packet>)
    requires s.Valid() && a.Valid() && Shows(s.log, answers, accepted)
    ensures Shows(Interrupt(s, a).0.log, answers + [Interrupt(s, a).1], accepted + AcceptedNow(s, a))
  {
    hide Interrupt, Frames0, Frames1, AcceptedNow;
    AnswerIsLogged(s, a);
    AcceptedIsStored(s, a);
    FramesAdd(answers, Interrupt(s, a).1);
  }

  /** Every interleaving, from `usbInit` on: the frames of the histories are the frames that
      left, in order, and the packets acknowledged are those whose data packet was answered
      with ACK. What UsbRuns says of the histories, it says of the bus. */
  lemma {:induction false} HistoriesShow(s: State, es: seq<Event>, guarded: bool)
    requires Initial(s) && ValidEvents(es)
    ensures Shows(Run(s, es, guarded).log, Answers(s, es, guarded), Accepted(s, es, guarded))
    decreases |es|
  {
    hide Interrupt, Main, Shows, AcceptedNow, Initial;
    InitialValid(s);
    if es == [] {
      ShowsNone(s);
    } else {
      RunSplits(es);
      var n := |es| - 1;
      HistoriesShow(s, es[..n], guarded);
      var t := Run(s, es[..n], guarded);
      match es[n]
      case Bus(a) => ShowsNext(t, a, Answers(s, es[..n], guarded), Accepted(s, es[..n], guarded));
      case Step(c) => ShowsStep(t, c, guarded, Answers(s, es[..n], guarded), Accepted(s, es[..n], guarded));
    }
  }

  lemma InitialValid(s: State)
    requires Initial(s)
    ensures s.Valid()
  {}

  lemma ShowsNone(s: State)
    requires Initial(s)
    ensures Shows(s.log, [], [])
  {}

  lemma ShowsStep(s: State, c: Choice, guarded: bool, answers: seq<Answer>, accepted: seq<Packet>)
    requires s.Valid() && c.Valid() && Shows(s.log, answers, accepted)
    ensures Shows(Main(s, c, guarded).log, answers + [], accepted + [])
  {
    hide Main, Frames0, Frames1;
    MainLogsNothing(s, c, guarded);
    assert answers + [] == answers && accepted + [] == accepted;
  }

  /** On the bus: with the guard, frame `i` of endpoint 1 is the whole packet of call `i`, and
      at most one packet is still to come. */
  lemma GuardedOnTheBus(s: State, es: seq<Event>)
    requires Initial(s) && ValidEvents(es)
    ensures
      var frames, loaded := Frames1(Answers(s, es, true)), Run(s, es, true).log.loaded;
      && |frames| <= |loaded| <= |frames| + 1
      && forall i :: 0 <= i < |frames| ==> frames[i] != [] && frames[i] == Frame(frames[i][0], loaded[i])
  {
    hide Run, Initial, Frames1, Frames0, Answers, Frame, Accepted, Alternates, PidFits, Tx1Fits, IsHandshake;
    InitialValid(s);
    HistoriesShow(s, es, true);
    GuardedSendsOnce(s, es);
    NeverHalfCopied(s, es, true);
    var log, frames := Run(s, es, true).log, Frames1(Answers(s, es, true));
    forall i | 0 <= i < |frames| ensures frames[i] != [] && frames[i] == Frame(frames[i][0], log.loaded[i]) {
      assert log.sent1[i].load == i && log.sent1[i].frame == frames[i];
    }
  }

  /** On the bus: a finished reply is the last |reply| / 8 + 1 frames of endpoint 0, packet by
      packet. */
  lemma ReplyOnTheBus(s: State, es: seq<Event>, guarded: bool)
    requires Initial(s) && ValidEvents(es)
    requires
      var r := Run(s, es, guarded);
      r.log.replies != [] && r.msg == None && IsHandshake(r.tx0.len) && r.pc.Poll?
    ensures
      var frames, replies := Frames0(Answers(s, es, guarded)), Run(s, es, guarded).log.replies;
      var reply := replies[|replies| - 1];
      var n := |reply| / 8 + 1;
      && n <= |frames| && Joined(reply, n) == reply
      && var last := frames[|frames| - n..];
         forall k :: 0 <= k < n ==> IsPacket(last[k], reply, k)
  {
    hide Run, Initial, Frames1, Frames0, Answers, Frame, Accepted, IsPacket, Joined, IsHandshake;
    InitialValid(s);
    HistoriesShow(s, es, guarded);
    ReplySentWhole(s, es, guarded);
    var log, frames := Run(s, es, guarded).log, Frames0(Answers(s, es, guarded));
    var reply, newest := log.replies[|log.replies| - 1], Newest(log.sent0, log.count);
    var last := frames[|frames| - |newest|..];
    forall k | 0 <= k < |newest| ensures IsPacket(last[k], reply, k) {
      assert newest[k] == log.sent0[|log.sent0| - log.count + k] && last[k] == newest[k].frame;
    }
  }
}
