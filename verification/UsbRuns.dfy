/** The driver's main results: every run, with interrupts between any two steps of the main
    program. */
module UsbRuns {
  import opened Bytes
  import opened UsbMachine
  import opened UsbReceive
  import opened UsbControl
  import opened UsbBulkIn

  predicate ValidEvents(es: seq<Event>) {
    forall e :: e in es ==> e.Valid()
  }

  lemma RunSplits(es: seq<Event>)
    requires ValidEvents(es) && es != []
    ensures ValidEvents(es[..|es| - 1]) && es[|es| - 1].Valid()
  {
    assert es[|es| - 1] in es;
  }

  // ------------------------------------------------------------------- invariance

  lemma InitialHolds(s: State)
    requires Initial(s)
    ensures ControlInv(s) && FreeInv(s)
  {
    hide Frame, IsPacket, Pid0;
  }

  lemma {:induction false} RunKeepsControl(s: State, es: seq<Event>, guarded: bool)
    requires Initial(s) && ValidEvents(es)
    ensures ControlInv(Run(s, es, guarded))
    decreases |es|
  {
    hide ControlInv, Interrupt, Main, Initial;
    InitialHolds(s);
    if es != [] {
      RunSplits(es);
      RunKeepsControl(s, es[..|es| - 1], guarded);
      var t := Run(s, es[..|es| - 1], guarded);
      match es[|es| - 1]
      case Bus(a) => InterruptKeepsControl(t, a);
      case Step(c) => MainKeepsControl(t, c, guarded);
    }
  }

  lemma {:induction false} RunKeepsBulk(s: State, es: seq<Event>, guarded: bool)
    requires Initial(s) && ValidEvents(es)
    ensures
      var r := Run(s, es, guarded);
      && BulkInv(r) && (r.log.late == 0 ==> FreeInv(r))
      && (guarded ==> TestFree(r) && r.log.late == 0)
    decreases |es|
  {
    hide BulkInv, FreeInv, LateInv, Interrupt, Main, Initial, Sound;
    StartsFree(s);
    if es != [] {
      RunSplits(es);
      RunKeepsBulk(s, es[..|es| - 1], guarded);
      var t := Run(s, es[..|es| - 1], guarded);
      FreeIsBulk(t);
      match es[|es| - 1]
      case Bus(a) => InterruptKeepsBulk(t, a);
      case Step(c) => MainKeepsBulk(t, c, guarded);
    }
  }

  lemma StartsFree(s: State)
    requires Initial(s)
    ensures FreeInv(s) && BulkInv(s) && TestFree(s) && s.log.late == 0
  {
    InitialHolds(s);
  }

  lemma FreeIsBulk(s: State)
    ensures FreeInv(s) ==> BulkInv(s)
  {}

  // -------------------------------------------------------------------- reception

  /** A data packet with data is acknowledged exactly when it is stored, with the bytes that
      arrived and the token before it; nothing else is. */
  lemma AckMeansStored(s: State, a: Arrival)
    requires s.Valid() && a.Valid()
    ensures
      var (r, answer) := Interrupt(s, a);
      var p := Packet(s.rx.currentTok, if |a.raw| >= 3 then a.raw[1..|a.raw| - 2] else []);
      if !a.overflow && a.raw[0] in {DATA0, DATA1} && |a.raw| >= 4 && answer == Handshake(ACK)
      then r.log.acked == s.log.acked + [p] && s.rx.len == 0 && r.rx.len == |a.raw|
      else r.log.acked == s.log.acked && r.rx.len == s.rx.len
  {
    hide IsHandshake, Endpoint, Setups, Splice;
    if |a.raw| >= 4 {
      SpliceRead(s.rx.buf, s.rx.offset, a.raw, 1, |a.raw| - 2);
    }
  }

  /** Every packet acknowledged is processed exactly once, in order, with its own token; at
      most one is waiting, and the half it is read from is not the one selected for
      reception. */
  lemma EveryPacketOnce(s: State, es: seq<Event>, guarded: bool)
    requires Initial(s) && ValidEvents(es)
    ensures
      var r := Run(s, es, guarded);
      && r.log.acked == r.log.processed + InFlight(r) && |InFlight(r)| <= 1
      && (r.pc.Reading? ==>
            r.rx.len > 0 && (r.pc.ptr + r.pc.n < r.rx.offset || r.rx.offset + USB_BUFSIZE <= r.pc.ptr))
  {
    RunKeepsControl(s, es, guarded);
  }

  // ------------------------------------------------------------------- endpoint 0

  /** Whatever was sent on endpoint 0 belongs to the reply to the SETUP acknowledged last:
      nothing of an earlier transfer leaves after it. */
  lemma NothingStale(s: State, es: seq<Event>, guarded: bool)
    requires Initial(s) && ValidEvents(es)
    ensures
      var log := Run(s, es, guarded).log;
      forall i :: 0 <= i < |log.sent0| ==> RightPacket(log.sent0[i], log.replies) && Follows(log.sent0, i)
  {
    RunKeepsControl(s, es, guarded);
  }

  lemma BeforeLast(sent: seq<Sent0>, replies: seq<seq<byte>>)
    requires Sent0Right(sent, replies) && sent != []
    ensures Follows(sent, |sent| - 1) && Sent0Right(sent[..|sent| - 1], replies)
  {
    hide RightPacket;
    var n := |sent| - 1;
    forall i | 0 <= i < n ensures RightPacket(sent[..n][i], replies) && Follows(sent[..n], i) {
      assert Follows(sent, i);
    }
  }

  function Newest(sent: seq<Sent0>, count: nat): (r: seq<Sent0>)
    requires count <= |sent|
    ensures |r| == count && forall k :: 0 <= k < count ==> r[k] == sent[|sent| - count + k]
  {
    sent[|sent| - count..]
  }

  lemma NewestGrows(sent: seq<Sent0>, count: nat)
    requires 0 < count <= |sent|
    ensures Newest(sent, count) == Newest(sent[..|sent| - 1], count - 1) + [sent[|sent| - 1]]
  {}

  /** The last `count` frames sent are the first `count` packets of the newest reply. */
  lemma {:induction false} LastFrames(sent: seq<Sent0>, replies: seq<seq<byte>>, count: nat)
    requires Sent0Right(sent, replies) && Counted(sent, replies, count)
    ensures count <= |sent|
    ensures
      var last := Newest(sent, count);
      forall k :: 0 <= k < count ==> last[k].reply == |replies| - 1 && last[k].index == k
    decreases count
  {
    hide Sent0Right;
    if count > 0 {
      BeforeLast(sent, replies);
      if count > 1 {
        LastFrames(sent[..|sent| - 1], replies, count - 1);
      }
      NewestGrows(sent, count);
    }
  }

  /** Packet for packet, the reply. */
  predicate SentWhole(frames: seq<Sent0>, reply: seq<byte>) {
    && |frames| == |reply| / 8 + 1 && Joined(reply, |frames|) == reply
    && forall k :: 0 <= k < |frames| ==> IsPacket(frames[k].frame, reply, k)
  }

  /** When the driver has no message left and nothing waits to be sent, the newest reply
      went out whole: |reply| / 8 + 1 packets, their data concatenate to it, the PIDs
      alternate from DATA1. */
  lemma ReplySentWhole(s: State, es: seq<Event>, guarded: bool)
    requires Initial(s) && ValidEvents(es)
    requires
      var r := Run(s, es, guarded);
      r.log.replies != [] && r.msg == None && IsHandshake(r.tx0.len) && r.pc.Poll?
    ensures
      var log := Run(s, es, guarded).log;
      log.count <= |log.sent0| && SentWhole(Newest(log.sent0, log.count), log.replies[|log.replies| - 1])
  {
    hide Run, ControlInv, SentWhole;
    RunKeepsControl(s, es, guarded);
    CountedOut(Run(s, es, guarded));
    FramesAreWhole(Run(s, es, guarded));
  }

  lemma FramesAreWhole(r: State)
    requires ControlInv(r) && r.log.replies != []
    requires r.log.count == |r.log.replies[|r.log.replies| - 1]| / 8 + 1
    ensures r.log.count <= |r.log.sent0|
    ensures SentWhole(Newest(r.log.sent0, r.log.count), r.log.replies[|r.log.replies| - 1])
  {
    hide IsPacket, Follows, RxInv, Tx0Fits, Setups, Joined;
    var log := r.log;
    var reply, from := log.replies[|log.replies| - 1], |log.sent0| - log.count;
    PacketsJoin(reply, log.count);
    LastFrames(log.sent0, log.replies, log.count);
    var frames := Newest(log.sent0, log.count);
    forall k | 0 <= k < |frames| ensures IsPacket(frames[k].frame, reply, k) {
      assert frames[k] == log.sent0[from + k];
      assert RightPacket(log.sent0[from + k], log.replies);
    }
  }

  lemma CountedOut(r: State)
    requires ControlInv(r) && r.log.replies != [] && r.msg == None && IsHandshake(r.tx0.len) && r.pc.Poll?
    ensures r.log.count == |r.log.replies[|r.log.replies| - 1]| / 8 + 1
  {
    hide RxInv, Frame, Setups, Joined;
    var reply, c := r.log.replies[|r.log.replies| - 1], r.log.count;
    assert After(reply, c) == None;
    if c > 0 {
      var e := r.log.sent0[|r.log.sent0| - 1];
      assert RightPacket(e, r.log.replies);
    }
  }

  /** The reply that is sent is the one the request was given, and a step that gives none
      leaves the history of replies alone. */
  lemma ReplyIsGiven(s: State, c: Choice, guarded: bool)
    requires s.Valid() && c.Valid()
    ensures
      var r := Main(s, c, guarded);
      && r.log.replies == (if s.pc.SetupReply? then s.log.replies + [c.reply] else s.log.replies)
      && (s.pc.SetupReply? ==> r.msg == Some(c.reply) && r.log.count == 0)
  {
    hide Splice, Toggle, IsHandshake;
  }

  // ------------------------------------------------------------------- endpoint 1

  /** No frame is half copied: each is the whole packet of some call, and later frames come
      from later calls, guard or no guard. */
  lemma NeverHalfCopied(s: State, es: seq<Event>, guarded: bool)
    requires Initial(s) && ValidEvents(es)
    ensures Sent1Right(Run(s, es, guarded).log.sent1, Run(s, es, guarded).log.loaded)
  {
    RunKeepsBulk(s, es, guarded);
  }

  /** With the guard every call's packet is sent exactly once, in order, the last one
      possibly still waiting; between resets of the toggling the PIDs alternate, from DATA0
      if nothing was waiting at the reset. */
  lemma GuardedSendsOnce(s: State, es: seq<Event>)
    requires Initial(s) && ValidEvents(es)
    ensures Sound(Run(s, es, true))
  {
    RunKeepsBulk(s, es, true);
  }

  /** At some moment between two calls a packet had been lost or a PID repeated. */
  ghost predicate Failed(s: State, es: seq<Event>, guarded: bool)
    requires s.Valid() && ValidEvents(es)
  {
    exists k :: 0 <= k <= |es| && FailedAt(s, es, guarded, k)
  }

  predicate FailedAt(s: State, es: seq<Event>, guarded: bool, k: nat)
    requires s.Valid() && ValidEvents(es) && k <= |es|
  {
    var r := Run(s, es[..k], guarded);
    !InSend(r.pc) && !Sound(r)
  }

  lemma FailedStays(s: State, es: seq<Event>, guarded: bool)
    requires s.Valid() && ValidEvents(es) && es != [] && Failed(s, es[..|es| - 1], guarded)
    ensures Failed(s, es, guarded)
  {
    var n := |es| - 1;
    var k :| 0 <= k <= n && FailedAt(s, es[..n], guarded, k);
    assert es[..n][..k] == es[..k];
    assert FailedAt(s, es, guarded, k);
  }

  lemma FailedNow(s: State, es: seq<Event>, guarded: bool)
    requires s.Valid() && ValidEvents(es)
    requires !InSend(Run(s, es, guarded).pc) && !Sound(Run(s, es, guarded))
    ensures Failed(s, es, guarded)
  {
    assert es[..|es|] == es;
    assert FailedAt(s, es, guarded, |es|);
  }

  /** The first call that finds a packet waiting ends badly. */
  lemma {:induction false} LateFails(s: State, es: seq<Event>, guarded: bool)
    requires Initial(s) && ValidEvents(es)
    ensures
      var r := Run(s, es, guarded);
      r.log.late > 0 ==> LateInv(r) || Failed(s, es, guarded)
    decreases |es|
  {
    hide BulkInv, FreeInv, LateInv, Interrupt, Main, Initial, Sound, Failed;
    StartsFree(s);
    if es != [] {
      RunSplits(es);
      var before := es[..|es| - 1];
      var t := Run(s, before, guarded);
      LateFails(s, before, guarded);
      RunKeepsBulk(s, before, guarded);
      if Failed(s, before, guarded) {
        FailedStays(s, es, guarded);
      } else {
        match es[|es| - 1]
        case Bus(a) => InterruptKeepsBulk(t, a);
        case Step(c) =>
          MainKeepsBulk(t, c, guarded);
          if LateInv(t) && !LateInv(Run(s, es, guarded)) {
            FailedNow(s, es, guarded);
          }
      }
    }
  }

  lemma {:induction false} LateGrows(s: State, es: seq<Event>, guarded: bool, k: nat)
    requires Initial(s) && ValidEvents(es) && k <= |es|
    ensures ValidEvents(es[..k]) && Run(s, es[..k], guarded).log.late <= Run(s, es, guarded).log.late
    decreases |es|
  {
    hide Interrupt, Main, Initial, BulkInv;
    StartsFree(s);
    if k == |es| {
      assert es[..k] == es;
    } else {
      RunSplits(es);
      var before := es[..|es| - 1];
      LateGrows(s, before, guarded, k);
      assert before[..k] == es[..k];
      RunKeepsBulk(s, before, guarded);
      match es[|es| - 1]
      case Bus(a) => InterruptKeepsBulk(Run(s, before, guarded), a);
      case Step(c) => MainKeepsBulk(Run(s, before, guarded), c, guarded);
    }
  }

  /** In every interleaving, whoever calls: each packet leaves exactly once and in order with
      alternating PIDs, at every moment between two calls, if and only if every call found
      the buffer free. A call that finds a packet waiting loses it, or repeats its PID. */
  lemma SoundIff(s: State, es: seq<Event>, guarded: bool)
    requires Initial(s) && ValidEvents(es) && !InSend(Run(s, es, guarded).pc)
    ensures !Failed(s, es, guarded) <==> Run(s, es, guarded).log.late == 0
  {
    hide Run, Initial, Sound;
    StartsFree(s);
    LateFails(s, es, guarded);
    if Run(s, es, guarded).log.late == 0 && Failed(s, es, guarded) {
      var k :| 0 <= k <= |es| && FailedAt(s, es, guarded, k);
      LateGrows(s, es, guarded, k);
      RunKeepsBulk(s, es[..k], guarded);
    }
  }

  /** A request that resets the toggling makes the next call's packet leave with DATA0, unless
      one was waiting, which then leaves with DATA1; no other step of the main program does. */
  lemma ResetRestarts(s: State, c: Choice)
    requires FreeInv(s) && TestFree(s) && c.Valid()
    ensures
      var r, reset := Main(s, c, true), s.pc.SetupReply? && c.reset;
      && FreeInv(r)
      && r.log.epoch == (if reset then [] else s.log.epoch)
      && (reset ==> r.tx1.buf[0] == DATA1 && (r.log.carried <==> !IsHandshake(s.tx1.len)))
  {
    hide FreeInv, TestFree, Main;
    FreeIsBulk(s);
    MainKeepsBulk(s, c, true);
    EpochAfter(s, c);
  }

  lemma EpochAfter(s: State, c: Choice)
    requires s.Valid() && c.Valid()
    ensures
      var r, reset := Main(s, c, true), s.pc.SetupReply? && c.reset;
      && r.log.epoch == (if reset then [] else s.log.epoch)
      && (reset ==> r.tx1.buf[0] == DATA1 && (r.log.carried <==> !IsHandshake(s.tx1.len)))
  {
    hide Splice, Toggle, IsHandshake;
  }
}
