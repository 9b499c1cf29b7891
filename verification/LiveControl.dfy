/** Endpoint 0 as the host sees it: a reply that has begun is heard to its end. */
module LiveControl {
  import opened Bytes
  import opened Device
  import opened System
  import opened Joint
  import opened Live
  import Runs
  import U = UsbMachine
  import C = UsbControl
  import UsbRuns
  import Wire

  /** Packets of the newest reply that have not been sent. */
  function Unsent(u: U.State): int {
    if u.log.replies == [] then 0 else |u.log.replies[|u.log.replies| - 1]| / 8 + 1 - u.log.count
  }

  /** Steps of the main program until a packet of it waits, at most. */
  function ToBuild(j: Joint): (n: nat)
    ensures n <= 29
  {
    if Wire.Waits0(j.usb) then 0
    else if j.usb.pc.App? then if j.called then 15 else 29
    else if U.InSend(j.usb.pc) then Left(j) - 14
    else if U.InBuild(j.usb.pc) then Left(j)
    else 14
  }

  // ------------------------------------------------------------------ single steps

  /** Between SETUPs, what is not sent is in the buffer, being built, or in the message. */
  lemma UnsentFacts(u: U.State)
    requires C.ControlInv(u) && u.rx.len == 0
    ensures Unsent(u) >= 0 && (Wire.Waits0(u) ==> Unsent(u) > 0)
    ensures !Wire.Waits0(u) && !C.Building(u.pc) && Unsent(u) > 0 ==> u.msg.Some?
    ensures C.Building(u.pc) ==> !Wire.Waits0(u)
    ensures !U.InReceive(u.pc) || u.pc.Poll?
  {
    hide U.Frame, U.Setups, C.Built;
    if u.log.replies != [] {
      C.PacketsOfReply(u.log.replies[|u.log.replies| - 1], u.log.count);
      if u.log.count > 0 {
        LastIndex(u);
      }
    }
  }

  lemma LastIndex(u: U.State)
    requires C.ControlInv(u) && u.log.replies != [] && u.log.count > 0
    ensures 8 * (u.log.count - 1) <= |u.log.replies[|u.log.replies| - 1]|
  {
    hide U.Frame, U.Setups, C.Tx0Fits;
    assert C.RightPacket(u.log.sent0[|u.log.sent0| - 1], u.log.replies);
  }

  /** The main program builds what is not sent, and leaves what waits. */
  lemma MainTx0(u: U.State, c: U.Choice)
    requires u.Valid() && c.Valid() && (!U.InReceive(u.pc) || u.pc.Poll?)
    ensures
      var r := U.Main(u, c, true);
      && r.log.count == u.log.count && r.log.replies == u.log.replies
      && (!C.Building(u.pc) ==> r.tx0 == u.tx0)
      && (u.pc.TxReady? ==> Wire.Waits0(r))
      && (u.pc.TxTest? && u.msg.Some? && !Wire.Waits0(u) ==> r.pc.TxToggle?)
      && (C.Building(u.pc) && !u.pc.TxReady? ==> C.Building(r.pc) && r.tx0.len == u.tx0.len)
      && (u.pc.Poll? && u.rx.len == 0 ==> r.pc.TxTest?)
      && (U.InSend(u.pc) ==> U.InSend(r.pc) || r.pc.App?)
      && (u.pc.App? && c.call == None ==> r.pc.Poll?)
  {
    hide Splice, U.Toggle;
  }

  /** A token takes at most the packet that waits on endpoint 0. */
  lemma TokenShape0(u: U.State, a: U.Arrival)
    requires u.Valid() && a.Valid() && NoData(Bus(a))
    ensures
      var r := U.Interrupt(u, a).0;
      && r.pc == u.pc && r.log.replies == u.log.replies
      && (r.log.count == u.log.count + 1 || (r.log.count == u.log.count && r.tx0 == u.tx0))
  {
    Wire.Identifiers();
    hide Splice, U.Endpoint, U.IsHandshake, U.Setups, Wire.Pid;
  }

  lemma BuildToken(j: Joint, a: U.Arrival)
    requires j.Valid() && a.Valid() && NoData(Bus(a))
    ensures
      var t := Next(j, Bus(a));
      && t.usb.log.replies == j.usb.log.replies && Unsent(t.usb) <= Unsent(j.usb)
      && (Unsent(t.usb) == Unsent(j.usb) > 0 ==> ToBuild(t) == ToBuild(j))
  {
    hide U.Interrupt, StepsLeft, U.IsHandshake, Wire.IsData, Wire.AcceptedNow;
    TokenShape0(j.usb, a);
  }

  lemma BuildPass(start: System, j: Joint, e: Event)
    requires JointInv(start, j) && Still(j) && e.Valid() && e.Step? && PassDue(j)
    ensures
      var t := Next(j, e);
      && t.usb.log == j.usb.log && ToBuild(t) <= OneLess(ToBuild(j), e)
  {
    hide JointInv, U.IsHandshake, Next;
    PassShape(start, j, e);
  }

  lemma BuildStep(start: System, j: Joint, e: Event)
    requires JointInv(start, j) && Still(j) && e.Valid() && e.Step? && !PassDue(j)
    ensures
      var t := Next(j, e);
      && t.usb.log.replies == j.usb.log.replies && t.usb.log.count == j.usb.log.count
      && (Unsent(j.usb) > 0 ==> ToBuild(t) <= OneLess(ToBuild(j), e))
  {
    hide JointInv, U.Main, U.IsHandshake, C.ControlInv, StepsLeft;
    ControlPart(start, j);
    UnsentFacts(j.usb);
    DriverShape(start, j, e);
    MainTx0(j.usb, U.Choice(e.reply, e.reset, None));
    Ranges(j.usb.pc, j.called);
    Ranges(Next(j, e).usb.pc, Next(j, e).called);
  }

  lemma ControlPart(start: System, j: Joint)
    requires JointInv(start, j)
    ensures j.Valid() && C.ControlInv(j.usb) && LoadsMatch(j) && BusMatches(j)
  {}

  /** Where the main program stands, by the steps it has left. */
  lemma Ranges(pc: U.Pc, called: bool)
    ensures pc.TxTest? ==> StepsLeft(pc, called) == 13
    ensures pc.TxToggle? ==> StepsLeft(pc, called) == 12
    ensures C.Building(pc) ==> 1 <= StepsLeft(pc, called) <= 12
    ensures U.InSend(pc) ==> StepsLeft(pc, called) >= 30
  {}

  /** While nothing comes from the host and the reply is not finished, each step leads to its
      next packet's waiting. */
  lemma BuildNext(start: System, j: Joint, e: Event)
    requires JointInv(start, j) && Still(j) && e.Valid() && NoData(e)
    ensures
      var t := Next(j, e);
      && JointInv(start, t) && Still(t)
      && t.usb.log.replies == j.usb.log.replies && Unsent(t.usb) <= Unsent(j.usb)
      && (Unsent(t.usb) == Unsent(j.usb) > 0 ==> ToBuild(t) <= OneLess(ToBuild(j), e))
  {
    hide JointInv, Next, ToBuild, Joint.Valid;
    InvValid(start, j);
    LoadNext(start, j, e);
    if e.Bus? {
      BuildToken(j, e.arrival);
    } else if PassDue(j) {
      BuildPass(start, j, e);
    } else {
      BuildStep(start, j, e);
    }
  }

  // ------------------------------------------------------------------- whole runs

  lemma {:induction false} BuildRun(start: System, j: Joint, es: seq<Event>)
    requires JointInv(start, j) && Still(j) && ValidEvents(es) && NoDataIn(es)
    ensures
      var t := Run(j, es);
      && JointInv(start, t) && Still(t)
      && t.usb.log.replies == j.usb.log.replies && Unsent(t.usb) <= Unsent(j.usb)
      && (Unsent(t.usb) == Unsent(j.usb) > 0 ==> ToBuild(t) + StepsIn(es) <= ToBuild(j) || ToBuild(t) == 0)
    decreases |es|
  {
    hide JointInv, Next, ToBuild, Still, Unsent, NoData, Joint.Valid;
    InvValid(start, j);
    if es != [] {
      var n := |es| - 1;
      BuildRun(start, j, es[..n]);
      InvValid(start, Run(j, es[..n]));
      BuildNext(start, Run(j, es[..n]), es[n]);
    }
  }

  /** An IN token for endpoint 0 of this device. */
  predicate AsksZero(a: U.Arrival) {
    a.Valid() && !a.overflow && a.mine && Wire.IsToken(a.raw, 0x69, 0)
  }

  lemma TokenTakes(start: System, j: Joint, a: U.Arrival)
    requires JointInv(start, j) && Still(j) && AsksZero(a) && ToBuild(j) == 0
    ensures NoData(Bus(a)) && Unsent(Next(j, Bus(a)).usb) < Unsent(j.usb)
  {
    hide JointInv, C.ControlInv, U.IsHandshake, StepsLeft, U.Interrupt, Wire.AcceptedNow;
    ControlPart(start, j);
    UnsentFacts(j.usb);
    Ranges(j.usb.pc, j.called);
    BuildRanges(j.usb.pc, j.called);
    ZeroTaken(j.usb, a);
  }

  lemma BuildRanges(pc: U.Pc, called: bool)
    ensures U.InBuild(pc) ==> StepsLeft(pc, called) >= 1
  {}

  lemma ZeroTaken(u: U.State, a: U.Arrival)
    requires u.Valid() && AsksZero(a) && u.rx.len == 0 && Wire.Waits0(u)
    ensures NoData(Bus(a))
    ensures
      var r := U.Interrupt(u, a).0;
      r.log.replies == u.log.replies && r.log.count == u.log.count + 1
  {
    hide U.IsHandshake, Wire.IsToken, Wire.Pid;
    Wire.Identifiers();
    Wire.TokenKind(u, a, U.PID_IN, 0);
    ZeroNoData(a);
    hide U.Classify, Splice, U.Setups;
  }

  lemma ZeroNoData(a: U.Arrival)
    requires AsksZero(a)
    ensures !Wire.IsData(a)
  {}

  /** Some time, and then an IN token for endpoint 0. */
  datatype Round0 = Round0(before: seq<Event>, token: U.Arrival) {
    predicate Valid() {
      ValidEvents(before) && NoDataIn(before) && StepsIn(before) >= 29 && AsksZero(token)
    }

    function Events(): (es: seq<Event>)
      requires Valid()
      ensures ValidEvents(es)
    {
      before + [Bus(token)]
    }
  }

  predicate ValidRounds0(rs: seq<Round0>) {
    forall i :: 0 <= i < |rs| ==> rs[i].Valid()
  }

  function Flat0(rs: seq<Round0>): (es: seq<Event>)
    requires ValidRounds0(rs)
    ensures ValidEvents(es)
  {
    if rs == [] then [] else AllEvents(Flat0(rs[..|rs| - 1]), rs[|rs| - 1].Events())
  }

  /** A round takes the host one packet of the reply further. */
  lemma RoundTakes(start: System, j: Joint, r: Round0)
    requires JointInv(start, j) && Still(j) && r.Valid()
    ensures
      var t := Run(j, r.Events());
      && JointInv(start, t) && Still(t) && t.usb.log.replies == j.usb.log.replies
      && Unsent(t.usb) <= (if Unsent(j.usb) > 0 then Unsent(j.usb) - 1 else 0)
  {
    hide JointInv, Next, Run, ToBuild, Still, Unsent, Joint.Valid, AsksZero, StepsIn;
    InvValid(start, j);
    var m := Run(j, r.before);
    BuildRun(start, j, r.before);
    InvValid(start, m);
    TokenIsCalm(r.token);
    RunOneMore(j, r.before, Bus(r.token));
    BuildNext(start, m, Bus(r.token));
    if Unsent(m.usb) == Unsent(j.usb) > 0 {
      TokenTakes(start, m, r.token);
    }
  }

  lemma TokenIsCalm(a: U.Arrival)
    requires AsksZero(a)
    ensures NoData(Bus(a)) && Bus(a).Valid()
  {}

  lemma {:induction false} RoundsTake(start: System, j: Joint, rs: seq<Round0>)
    requires JointInv(start, j) && Still(j) && ValidRounds0(rs)
    ensures
      var t := Run(j, Flat0(rs));
      && JointInv(start, t) && Still(t) && t.usb.log.replies == j.usb.log.replies
      && Unsent(t.usb) <= (if |rs| < Unsent(j.usb) then Unsent(j.usb) - |rs| else 0)
    decreases |rs|
  {
    hide JointInv, Next, Run, Still, Unsent, Joint.Valid, Round0.Valid, Round0.Events;
    InvValid(start, j);
    if rs == [] {
      RunNone(j);
      NeverOver(start, j);
    } else {
      var n := |rs| - 1;
      RoundsTake(start, j, rs[..n]);
      var m := Run(j, Flat0(rs[..n]));
      InvValid(start, m);
      RunAppend(j, Flat0(rs[..n]), rs[n].Events());
      RoundTakes(start, m, rs[n]);
    }
  }

  lemma NeverOver(start: System, j: Joint)
    requires JointInv(start, j) && Still(j)
    ensures Unsent(j.usb) >= 0
  {
    hide JointInv, C.ControlInv;
    ControlPart(start, j);
    UnsentFacts(j.usb);
  }

  /** From any reachable state with nothing on its way from the host: there are as many replies
      as SETUPs were acknowledged, and after as many rounds as the newest reply has packets
      unsent, the last frames that the host got on endpoint 0 are that reply, packet by packet,
      from the first to the last. */
  lemma ReplyHeard(start: System, j: Joint, rs: seq<Round0>)
    requires JointInv(start, j) && Still(j) && ValidRounds0(rs) && |rs| >= Unsent(j.usb)
    ensures |j.usb.log.replies| == U.Setups(j.accepted)
    ensures
      var t := Run(j, Flat0(rs));
      && t.usb.log.replies == j.usb.log.replies
      && (j.usb.log.replies != [] ==>
            var reply := j.usb.log.replies[|j.usb.log.replies| - 1];
            var n := |reply| / 8 + 1;
            && n <= |t.frames0| && C.Joined(reply, n) == reply
            && var last := t.frames0[|t.frames0| - n..];
               forall k :: 0 <= k < n ==> C.IsPacket(last[k], reply, k))
  {
    hide JointInv, Run, C.ControlInv, C.IsPacket, C.Joined, U.Setups, UsbRuns.Newest, Round0.Valid;
    ControlPart(start, j);
    RepliesCounted(start, j);
    RoundsTake(start, j, rs);
    var t := Run(j, Flat0(rs));
    ControlPart(start, t);
    NeverOver(start, t);
    if j.usb.log.replies != [] {
      UsbRuns.FramesAreWhole(t.usb);
      LastAreNewest(t);
    }
  }

  lemma RepliesCounted(start: System, j: Joint)
    requires JointInv(start, j) && Still(j)
    ensures |j.usb.log.replies| == U.Setups(j.accepted)
  {
    hide Inv, C.Tx0Fits, C.Sent0Right, C.Counted, U.Setups;
    assert j.usb.log.processed + [] == j.usb.log.processed;
  }

  lemma LastAreNewest(t: Joint)
    requires BusMatches(t) && t.usb.log.count <= |t.usb.log.sent0|
    ensures
      var newest, last := UsbRuns.Newest(t.usb.log.sent0, t.usb.log.count), t.frames0[|t.frames0| - t.usb.log.count..];
      |last| == |newest| == t.usb.log.count && forall k :: 0 <= k < |last| ==> last[k] == newest[k].frame
  {}
}
