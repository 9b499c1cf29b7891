/** Endpoint 1: `usbSetInterrupt` against IN tokens. No packet leaves half copied, whatever
    the interleaving; with the guard of the main loop each packet leaves exactly once and the
    PIDs alternate. */
module UsbBulkIn {
  import opened Bytes
  import opened UsbMachine
  import Crc16

  predicate Filling(pc: Pc) {
    pc.SiCopy? || pc.SiCrc? || pc.SiReady?
  }

  /** What is in the buffer. */
  predicate Tx1Fits(s: State)
    requires s.Valid()
  {
    var buf, loaded := s.tx1.buf, s.log.loaded;
    && (!IsHandshake(s.tx1.len) ==>
          && !Filling(s.pc) && !s.pc.SiToggle? && loaded != [] && s.tx1.len == |loaded[|loaded| - 1]| + 4
          && buf[..s.tx1.len - 1] == Frame(buf[0], loaded[|loaded| - 1]))
    && match s.pc
       case SiCopy(src, _, i) => buf[1..1 + i] == src[..i]
       case SiCrc(src, size) => buf[1..1 + size] == src[..size]
       case SiReady(src, size) => buf[..size + 3] == Frame(buf[0], src[..size])
       case _ => true
  }

  /** Every frame sent is a whole packet that some call completed, and later frames come from
      later calls. */
  predicate Sent1Right(sent: seq<Sent1>, loaded: seq<seq<byte>>) {
    && (forall i :: 0 <= i < |sent| ==>
          && 0 <= sent[i].load < |loaded| && sent[i].frame != []
          && sent[i].frame == Frame(sent[i].frame[0], loaded[sent[i].load]))
    && (forall i :: 0 < i < |sent| ==> sent[i - 1].load < sent[i].load)
  }

  predicate BulkInv(s: State) {
    && s.Valid() && Tx1Fits(s) && Sent1Right(s.log.sent1, s.log.loaded)
    && (!IsHandshake(s.tx1.len) && s.log.sent1 != [] ==>
          s.log.sent1[|s.log.sent1| - 1].load < |s.log.loaded| - 1)
  }

  // --------------------------------------------------------------- with the guard

  /** The PID of packet `k` since the toggling was reset: from DATA0 on, or from DATA1 when a
      packet was waiting at the reset. */
  function Pid1(carried: bool, k: nat): byte {
    if (k % 2 == 0) == carried then DATA1 else DATA0
  }

  /** The PIDs since the reset alternate, and they are those of the last frames sent. */
  predicate Alternates(sent: seq<Sent1>, epoch: seq<byte>, carried: bool) {
    && |epoch| <= |sent|
    && var last := sent[|sent| - |epoch|..];
       forall i :: 0 <= i < |epoch| ==> last[i].frame != [] && last[i].frame[0] == epoch[i] == Pid1(carried, i)
  }

  /** Frame `i` is that of call `i`. */
  predicate ExactlyOnce(sent: seq<Sent1>) {
    forall i :: 0 <= i < |sent| ==> sent[i].load == i
  }

  /** The PID in the buffer: that of the packet in it, or that of the last one sent. */
  predicate PidFits(s: State)
    requires s.Valid()
  {
    var k := |s.log.epoch|;
    s.tx1.buf[0] == Pid1(s.log.carried, if !IsHandshake(s.tx1.len) || Filling(s.pc) then k else k + 1)
  }

  /** Every call's packet was sent exactly once and in order, the last one possibly still
      waiting, and the PIDs alternate since the last reset of the toggling, the one in the
      buffer included. */
  predicate Sound(s: State)
    requires s.Valid()
  {
    && ExactlyOnce(s.log.sent1)
    && |s.log.loaded| == |s.log.sent1| + (if IsHandshake(s.tx1.len) then 0 else 1)
    && Alternates(s.log.sent1, s.log.epoch, s.log.carried) && PidFits(s)
  }

  /** As long as every call found the buffer free. */
  predicate FreeInv(s: State) {
    BulkInv(s) && Sound(s) && !s.pc.SiAbort?
  }

  /** What the guard of the main loop achieves. */
  predicate TestFree(s: State) {
    s.pc.SiTest? ==> IsHandshake(s.tx1.len)
  }

  /** A call that found a packet waiting is on its way: that packet was not sent, or it was
      sent since and its PID is in the buffer. */
  predicate LateInv(s: State) {
    && BulkInv(s) && (s.pc.SiAbort? || Filling(s.pc))
    && var sent, epoch := |s.log.sent1|, s.log.epoch;
       || |s.log.loaded| == sent + 1
       || (|s.log.loaded| == sent && IsHandshake(s.tx1.len) && epoch != [] && s.tx1.buf[0] == epoch[|epoch| - 1])
  }

  // ------------------------------------------------------------------ small steps

  lemma Toggles(carried: bool, k: nat)
    ensures Toggle(Pid1(carried, k + 1)) == Pid1(carried, k)
    ensures Pid1(carried, k + 2) == Pid1(carried, k)
  {}

  lemma SentOne(sent: seq<Sent1>, loaded: seq<seq<byte>>, e: Sent1)
    requires Sent1Right(sent, loaded)
    requires 0 <= e.load < |loaded| && e.frame != [] && e.frame == Frame(e.frame[0], loaded[e.load])
    requires sent != [] ==> sent[|sent| - 1].load < e.load
    ensures Sent1Right(sent + [e], loaded)
  {
    hide Frame;
  }

  lemma LoadedOne(sent: seq<Sent1>, loaded: seq<seq<byte>>, data: seq<byte>)
    requires Sent1Right(sent, loaded)
    ensures Sent1Right(sent, loaded + [data])
    ensures sent != [] ==> sent[|sent| - 1].load < |loaded|
  {
    hide Frame;
  }

  lemma AlternatesOn(sent: seq<Sent1>, epoch: seq<byte>, carried: bool, e: Sent1)
    requires Alternates(sent, epoch, carried) && e.frame != [] && e.frame[0] == Pid1(carried, |epoch|)
    ensures Alternates(sent + [e], epoch + [e.frame[0]], carried)
  {
    hide Pid1;
    var from := |sent| - |epoch|;
    assert (sent + [e])[from..] == sent[from..] + [e];
  }

  // ---------------------------------------------------------------- the interrupt

  lemma InKeepsBulk(s: State, endpoint: byte)
    requires BulkInv(s)
    ensures BulkInv(HandleIn(s, endpoint).0)
    ensures FreeInv(s) ==> FreeInv(HandleIn(s, endpoint).0)
    ensures TestFree(s) ==> TestFree(HandleIn(s, endpoint).0)
    ensures LateInv(s) ==> LateInv(HandleIn(s, endpoint).0)
    ensures HandleIn(s, endpoint).0.log.late == s.log.late
  {
    hide Sent1Right, Frame, Setups, Pid1, Alternates;
    if s.rx.len == 0 && endpoint != 0 && !IsHandshake(s.tx1.len) {
      var e := Sent1(s.tx1.buf[..s.tx1.len - 1], |s.log.loaded| - 1);
      SentOne(s.log.sent1, s.log.loaded, e);
      if FreeInv(s) {
        AlternatesOn(s.log.sent1, s.log.epoch, s.log.carried, e);
        Toggles(s.log.carried, |s.log.epoch|);
      }
    }
  }

  lemma InterruptKeepsBulk(s: State, a: Arrival)
    requires BulkInv(s) && a.Valid()
    ensures BulkInv(Interrupt(s, a).0)
    ensures FreeInv(s) ==> FreeInv(Interrupt(s, a).0)
    ensures TestFree(s) ==> TestFree(Interrupt(s, a).0)
    ensures LateInv(s) ==> LateInv(Interrupt(s, a).0)
    ensures Interrupt(s, a).0.log.late == s.log.late
  {
    hide Classify, HandleIn, Receiver, Sent1Right, Frame, Pid1, Alternates, ExactlyOnce, IsHandshake, Rx.Valid;
    var r := Receiver(s, a.raw);
    assert BulkInv(r) && (FreeInv(s) ==> FreeInv(r)) && (LateInv(s) ==> LateInv(r));
    match Classify(r.rx, a)
    case Other(current) =>
    case Data => DataKeepsBulk(r, |a.raw|);
    case In(endpoint) => InKeepsBulk(r, endpoint);
  }

  lemma DataKeepsBulk(s: State, cnt: nat)
    requires BulkInv(s) && 1 <= cnt <= USB_BUFSIZE
    ensures BulkInv(HandleData(s, cnt).0)
    ensures FreeInv(s) ==> FreeInv(HandleData(s, cnt).0)
    ensures TestFree(s) ==> TestFree(HandleData(s, cnt).0)
    ensures LateInv(s) ==> LateInv(HandleData(s, cnt).0)
    ensures HandleData(s, cnt).0.log.late == s.log.late
  {
    hide Sent1Right, Frame, Pid1, Alternates, ExactlyOnce, IsHandshake;
  }

  // ------------------------------------------------------------- the main program

  lemma ReceiveKeepsBulk(s: State, c: Choice)
    requires BulkInv(s) && c.Valid() && InReceive(s.pc)
    ensures BulkInv(Receive(s, c))
    ensures FreeInv(s) ==> FreeInv(Receive(s, c))
    ensures Receive(s, c).log.late == s.log.late
  {
    hide Sent1Right, Frame, Pid1, Alternates, ExactlyOnce, IsHandshake, Rx.Valid, Receive, ResetToggling;
    ReceiveLeaves(s, c);
    if s.pc.SetupReply? {
      ResetKeepsBulk(s);
    }
  }

  /** Processing a packet touches endpoint 1 only when it resets the toggling. */
  lemma ReceiveLeaves(s: State, c: Choice)
    requires s.Valid() && c.Valid() && InReceive(s.pc)
    ensures
      var r, t := Receive(s, c), if s.pc.SetupReply? && c.reset then ResetToggling(s) else s;
      && (InReceive(r.pc) || r.pc.TxTest?) && r.tx1 == t.tx1
      && r.log.sent1 == t.log.sent1 && r.log.loaded == t.log.loaded
      && r.log.epoch == t.log.epoch && r.log.carried == t.log.carried && r.log.late == t.log.late
  {
    hide IsHandshake, ResetToggling;
  }

  lemma ResetKeepsBulk(s: State)
    requires BulkInv(s) && s.pc.SetupReply?
    ensures BulkInv(ResetToggling(s))
    ensures FreeInv(s) ==> FreeInv(ResetToggling(s))
    ensures ResetToggling(s).log.late == s.log.late
  {
    hide Sent1Right, Frame, Pid1, Alternates, ExactlyOnce, IsHandshake, Rx.Valid;
    if !IsHandshake(s.tx1.len) {
      OtherPid(s.tx1.buf, s.log.loaded[|s.log.loaded| - 1]);
    }
    ResetPids(s.log.sent1, !IsHandshake(s.tx1.len));
  }

  lemma OtherPid(buf: seq<byte>, data: seq<byte>)
    requires |data| + 3 <= |buf| && buf[..|data| + 3] == Frame(buf[0], data)
    ensures buf[0 := DATA1][..|data| + 3] == Frame(DATA1, data)
  {
    var n := |data| + 3;
    assert buf[0 := DATA1][..n] == [DATA1] + buf[..n][1..];
    assert Frame(DATA1, data) == [DATA1] + Frame(buf[0], data)[1..];
  }

  lemma ResetPids(sent: seq<Sent1>, carried: bool)
    ensures Alternates(sent, [], carried) && Pid1(carried, if carried then 0 else 1) == DATA1
  {}

  lemma BuildLeaves(s: State)
    requires s.Valid() && InBuild(s.pc)
    ensures Build(s).tx1 == s.tx1 && Build(s).log == s.log && (InBuild(Build(s).pc) || Build(s).pc.App?)
  {
    hide IsHandshake, Splice, Crc16.Trailer, Toggle;
  }

  lemma BuildKeepsBulk(s: State)
    requires BulkInv(s) && InBuild(s.pc)
    ensures BulkInv(Build(s))
    ensures FreeInv(s) ==> FreeInv(Build(s))
    ensures Build(s).log.late == s.log.late
  {
    hide Sent1Right, Frame, Pid1, Alternates, ExactlyOnce, IsHandshake, Rx.Valid, Splice, Crc16.Trailer, Toggle,
         Build;
    BuildLeaves(s);
  }

  lemma SendKeepsBulk(s: State)
    requires BulkInv(s) && InSend(s.pc)
    ensures BulkInv(Send(s))
    ensures FreeInv(s) && Send(s).log.late == s.log.late ==> FreeInv(Send(s))
  {
    hide Sent1Right, Frame, Pid1, Alternates, ExactlyOnce, Rx.Valid, Crc16.Trailer, Toggle, Send, Tx1Fits;
    SendFits(s);
    SendLogs(s);
    if s.pc.SiReady? {
      LoadedOne(s.log.sent1, s.log.loaded, s.pc.src[..s.pc.size]);
    }
    if FreeInv(s) {
      PidsFit(s);
    }
  }

  /** A call that finds a packet waiting. */
  lemma TestLate(s: State)
    requires FreeInv(s) && s.pc.SiTest? && !IsHandshake(s.tx1.len)
    ensures LateInv(Send(s)) && Send(s).log.late == s.log.late + 1
  {
    hide Sent1Right, Frame, Pid1, Alternates, ExactlyOnce, Rx.Valid, Crc16.Trailer, Toggle;
  }

  /** Such a call ends with that packet never sent, or with its PID again. */
  lemma SendLate(s: State)
    requires LateInv(s)
    ensures
      var r := Send(s);
      && r.log.late == s.log.late && BulkInv(r)
      && if s.pc.SiReady? then r.pc == App && !Sound(r) else LateInv(r)
  {
    hide Sent1Right, Frame, ExactlyOnce, Rx.Valid, Crc16.Trailer, Toggle, Alternates, Pid1;
    SendKeepsBulk(s);
    if s.pc.SiCrc? {
      CrcCompletes(s.tx1.buf, s.pc.size);
    }
    if s.pc.SiReady? && |s.log.loaded| == |s.log.sent1| && Alternates(s.log.sent1, s.log.epoch, s.log.carried) {
      LastPid(s.log);
    }
  }

  lemma LastPid(log: Log)
    requires Alternates(log.sent1, log.epoch, log.carried) && log.epoch != []
    ensures log.epoch[|log.epoch| - 1] != Pid1(log.carried, |log.epoch|)
  {}

  /** What a step of `usbGenericSetInterrupt` does outside the buffer. */
  lemma SendLogs(s: State)
    requires s.Valid() && Tx1Fits(s) && InSend(s.pc)
    ensures s.pc.SiReady? ==> IsHandshake(s.tx1.len)
    ensures
      var r := Send(s);
      && r.log == (if s.pc.SiReady? then s.log.(loaded := s.log.loaded + [s.pc.src[..s.pc.size]])
                   else if r.pc.SiAbort? then s.log.(late := s.log.late + 1) else s.log)
      && (s.pc.SiReady? ==> r.tx1.len == s.pc.size + 4 && r.pc == App)
      && (s.pc.SiAbort? ==> r.tx1.len == NAK)
      && (!s.pc.SiReady? && !s.pc.SiAbort? ==> r.tx1.len == s.tx1.len)
      && (r.pc.SiAbort? ==> s.pc.SiTest? && !IsHandshake(s.tx1.len)) && !r.pc.SiTest?
  {
    hide IsHandshake, Splice, Crc16.Trailer, Toggle, Frame;
  }

  lemma PidsFit(s: State)
    requires FreeInv(s) && InSend(s.pc)
    ensures PidFits(Send(s))
  {
    hide Sent1Right, Frame, Pid1, Alternates, ExactlyOnce, Rx.Valid, Crc16.Trailer, Toggle;
    Toggles(s.log.carried, |s.log.epoch|);
    if s.pc.SiCrc? {
      CrcCompletes(s.tx1.buf, s.pc.size);
    }
  }

  lemma SendFits(s: State)
    requires BulkInv(s) && InSend(s.pc)
    ensures Tx1Fits(Send(s))
  {
    hide Sent1Right, Frame, Rx.Valid, Crc16.Trailer, Toggle;
    match s.pc
    case SiCopy(src, size, i) =>
      assert s.tx1.buf[1 + i := src[i]][1..1 + i + 1] == src[..i + 1];
      assert i + 1 >= size ==> s.tx1.buf[1 + i := src[i]][1..1 + size] == src[..size];
    case SiCrc(src, size) =>
      CrcCompletes(s.tx1.buf, size);
    case _ =>
  }

  lemma MainKeepsBulk(s: State, c: Choice, guarded: bool)
    requires BulkInv(s) && c.Valid()
    ensures
      var r := Main(s, c, guarded);
      && BulkInv(r) && s.log.late <= r.log.late
      && (FreeInv(s) && r.log.late == s.log.late ==> FreeInv(r))
      && (FreeInv(s) && r.log.late != s.log.late ==> LateInv(r))
      && (LateInv(s) ==> r.log.late == s.log.late && (LateInv(r) || (r.pc == App && !Sound(r))))
      && (guarded && TestFree(s) ==> TestFree(r) && r.log.late == s.log.late)
  {
    hide Build, Send, Receive, IsHandshake, Sent1Right, Frame, Pid1, Alternates, ExactlyOnce, Rx.Valid;
    if InReceive(s.pc) {
      ReceiveKeepsBulk(s, c);
      ReceiveLeaves(s, c);
    } else if InBuild(s.pc) {
      BuildKeepsBulk(s);
      BuildLeaves(s);
    } else if InSend(s.pc) {
      SendKeepsBulk(s);
      SendLogs(s);
      if LateInv(s) {
        SendLate(s);
      }
      if FreeInv(s) && s.pc.SiTest? && !IsHandshake(s.tx1.len) {
        TestLate(s);
      }
    }
  }
}
