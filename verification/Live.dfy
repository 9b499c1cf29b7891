/** What the host is owed, it hears: how many steps of the main program, and how many IN tokens,
    that takes, whatever else comes on the bus. */
module Live {
  import opened Bytes
  import opened Device
  import opened Disk
  import opened System
  import opened Joint
  import Runs
  import U = UsbMachine
  import C = UsbControl
  import B = UsbBulkIn
  import Commands
  import Wire

  // --------------------------------------------------------- the next pass comes

  /** Steps of the main program until the next pass of the main loop is due, at most. */
  function StepsLeft(pc: U.Pc, called: bool): (n: nat)
    ensures n <= 42
  {
    match pc
    case App => if called then 29 else 0
    case TxReady(_) => 1
    case TxCrc(_) => 2
    case TxCopy(chunk, i) => if i <= |chunk| <= 8 then 3 + |chunk| - i else 3
    case TxToggle(_) => 12
    case TxTest => 13
    case Release => 14
    case SetupReply => 15
    case Reading(_, n, got) => if |got| <= n <= 8 then 16 + n - |got| else 16
    case SetupNak(_, _) => 25
    case SetupToken(_, _) => 26
    case Enter(_) => 27
    case Poll => 28
    case SiReady(_, _) => 30
    case SiCrc(_, _) => 31
    case SiCopy(_, size, i) => if i < size <= 8 then 32 + size - i else 32
    case SiToggle(_, _) => 41
    case SiAbort(_, _) => 41
    case SiTest(_, _) => 42
  }

  function Left(j: Joint): (n: nat)
    ensures n <= 42
  {
    StepsLeft(j.usb.pc, j.called)
  }

  /** The pass has made its call only while that call, or its return, is under way. */
  predicate CallFits(pc: U.Pc, called: bool) {
    called ==> U.InSend(pc) || pc.App?
  }

  /** A step of the driver's own brings the pass nearer. */
  lemma StepsOn(u: U.State, c: U.Choice, called: bool)
    requires u.Valid() && c.Valid() && c.call == None && (u.pc.App? ==> called) && CallFits(u.pc, called)
    ensures
      var r := U.Main(u, c, true);
      StepsLeft(r.pc, called && !u.pc.App?) < StepsLeft(u.pc, called) && CallFits(r.pc, called && !u.pc.App?)
  {
    hide U.Receive, U.Build, U.Send;
    if U.InReceive(u.pc) {
      ReceiveOn(u, c, called);
    } else if U.InBuild(u.pc) {
      BuildOn(u, called);
    } else if U.InSend(u.pc) {
      SendOn(u, called);
    }
  }

  lemma ReceiveOn(u: U.State, c: U.Choice, called: bool)
    requires u.Valid() && c.Valid() && U.InReceive(u.pc)
    ensures StepsLeft(U.Receive(u, c).pc, called) < StepsLeft(u.pc, called)
  {
    hide U.ResetToggling, U.IsHandshake;
  }

  lemma BuildOn(u: U.State, called: bool)
    requires u.Valid() && U.InBuild(u.pc)
    requires !called
    ensures StepsLeft(U.Build(u).pc, called) < StepsLeft(u.pc, called)
  {
    hide Splice, U.IsHandshake, U.Toggle;
  }

  lemma SendOn(u: U.State, called: bool)
    requires u.Valid() && U.InSend(u.pc)
    ensures StepsLeft(U.Send(u).pc, called) < StepsLeft(u.pc, called) && CallFits(U.Send(u).pc, called)
  {
    hide Splice, U.IsHandshake, U.Toggle;
  }

  function StepsIn(es: seq<Event>): nat {
    if es == [] then 0 else StepsIn(es[..|es| - 1]) + if es[|es| - 1].Step? then 1 else 0
  }

  lemma NextLeft(j: Joint, e: Event)
    requires j.Valid() && e.Valid() && (e.Step? ==> !PassDue(j)) && CallFits(j.usb.pc, j.called)
    ensures CallFits(Next(j, e).usb.pc, Next(j, e).called)
    ensures Left(Next(j, e)) + (if e.Step? then 1 else 0) <= Left(j)
  {
    hide StepsLeft, U.Main, U.Interrupt;
    if e.Step? {
      StepsOn(j.usb, U.Choice(e.reply, e.reset, None), j.called);
    }
  }

  lemma {:induction false} NoPassYet(j: Joint, es: seq<Event>)
    requires j.Valid() && ValidEvents(es) && forall k :: 0 <= k < |es| ==> !PassDue(Run(j, es[..k]))
    requires CallFits(j.usb.pc, j.called)
    ensures CallFits(Run(j, es).usb.pc, Run(j, es).called)
    ensures Left(Run(j, es)) + StepsIn(es) <= Left(j)
    decreases |es|
  {
    hide Next, Left, PassDue, CallFits, Joint.Valid;
    if es != [] {
      var n := |es| - 1;
      forall k | 0 <= k < n ensures !PassDue(Run(j, es[..n][..k])) {
        assert es[..n][..k] == es[..k];
      }
      NoPassYet(j, es[..n]);
      NextLeft(Run(j, es[..n]), es[n]);
    }
  }

  /** Whatever comes on the bus, the main loop's next pass is due after at most 42 steps of the
      main program. */
  lemma PassComes(j: Joint, es: seq<Event>)
    requires j.Valid() && CallFits(j.usb.pc, j.called) && ValidEvents(es) && StepsIn(es) >= 42
    ensures exists k :: 0 <= k <= |es| && PassDue(Run(j, es[..k]))
  {
    hide Run, StepsIn, Left, PassDue, CallFits, Joint.Valid;
    if forall k :: 0 <= k < |es| ==> !PassDue(Run(j, es[..k])) {
      NoPassYet(j, es);
      assert es[..|es|] == es;
      LeftNone(Run(j, es));
    }
  }

  lemma LeftNone(j: Joint)
    requires j.Valid() && Left(j) == 0
    ensures PassDue(j)
  {}

  // ------------------------------------------------ packets on their way are taken

  /** Tokens and handshakes only. */
  predicate NoData(e: Event) {
    e.Bus? ==> !Wire.IsData(e.arrival)
  }

  predicate NoDataIn(es: seq<Event>) {
    forall i :: 0 <= i < |es| ==> NoData(es[i])
  }

  /** No packet from the host is on its way to the disk. */
  predicate Still(j: Joint) {
    j.usb.rx.len == 0 && j.arrived == None
  }

  /** Steps of the main program until then, at most: to the end of this pass, or of the next. */
  function ToSettle(j: Joint): (n: nat)
    ensures n <= 57 && (n == 0 <==> Still(j))
  {
    if j.usb.rx.len == 0 then if j.arrived == None then 0 else Left(j) + 1
    else if U.InBuild(j.usb.pc) || PassDue(j) then Left(j) + 44
    else Left(j) + 1
  }

  /** A pass of the main loop, seen from the driver. */
  lemma PassShape(start: System, j: Joint, e: Event)
    requires JointInv(start, j) && e.Valid() && e.Step? && PassDue(j) && Obeys(j, e)
    ensures
      var t, input := Next(j, e), PassInput(j, e.busOk);
      && Runs.Legal(j.sys, input) && t.sys == Runs.Next(j.sys, input) && t.arrived == None
      && t.usb == j.usb.(pc := t.usb.pc)
      && if Turn(j.sys.dev, input).1 == [] then t.usb.pc.Poll? && !t.called else t.usb.pc.SiTest? && t.called
  {
    hide C.ControlInv, B.FreeInv, B.TestFree, Inv, Runs.LegalRun, Runs.Run, Runs.Next, Turn, Runs.Legal, U.Main,
         Taken, Outs,
         U.State.Valid, Device.Valid, Disk.Valid, LoadsMatch, PacketsMatch, OnItsWay, CallFor;
    var input := PassInput(j, e.busOk);
    ObedientIsLegal(start, j, e.busOk);
    OneLoad(j.sys, input);
    var loads := Turn(j.sys.dev, input).1;
    LoadsFit(j.sys.dev, input);
    AppLeaves(j.usb, U.Choice(e.reply, e.reset, if loads == [] then None else Some(CallFor(loads[0]))));
  }

  /** A step of the driver's own, seen from the disk. */
  lemma DriverShape(start: System, j: Joint, e: Event)
    requires JointInv(start, j) && e.Valid() && e.Step? && !PassDue(j)
    ensures
      var t := Next(j, e);
      && t.sys == j.sys && Left(t) < Left(j)
      && t.usb.rx.len == (if j.usb.pc.Release? then 0 else j.usb.rx.len)
      && (j.usb.rx.len == 0 ==> t.arrived == j.arrived)
  {
    hide C.Tx0Fits, C.Sent0Right, C.Counted, B.FreeInv, B.TestFree, Inv, Runs.LegalRun, Runs.Run, U.Main,
         PacketsMatch, RunMatches,
         U.State.PcValid, Device.Valid, Disk.Valid, OnItsWay, Left, CallFits;
    CallsFit(j);
    NextLeft(j, e);
    MainRx(j.usb, U.Choice(e.reply, e.reset, None));
  }

  lemma CallsFit(j: Joint)
    requires LoadsMatch(j)
    ensures CallFits(j.usb.pc, j.called)
  {
    hide OnItsWay;
  }

  lemma MainRx(u: U.State, c: U.Choice)
    requires u.Valid() && c.Valid()
    ensures U.Main(u, c, true).rx == if u.pc.Release? then u.rx.(len := 0) else u.rx
  {
    hide Splice, U.IsHandshake, U.Toggle;
  }

  /** A token or a handshake takes at most the packet that waits on endpoint 1. */
  lemma TokenShape(u: U.State, a: U.Arrival)
    requires u.Valid() && a.Valid() && NoData(Bus(a))
    ensures
      var r := U.Interrupt(u, a).0;
      && r.pc == u.pc && r.rx.len == u.rx.len
      && (|r.log.sent1| == |u.log.sent1| + 1 || (r.log.sent1 == u.log.sent1 && r.tx1 == u.tx1))
  {
    Wire.Identifiers();
    hide Splice, U.Endpoint, U.IsHandshake, U.Setups, Wire.Pid;
  }

  /** A received packet is processed before anything is built. */
  lemma MainOrder(u: U.State, c: U.Choice)
    requires u.Valid() && c.Valid() && c.call == None
    ensures
      var r := U.Main(u, c, true);
      && (U.InBuild(r.pc) ==> U.InBuild(u.pc) || u.pc.Release? || (u.pc.Poll? && u.rx.len == 0))
      && (r.pc.App? ==> U.InBuild(u.pc) || U.InSend(u.pc))
  {
    hide Splice, U.IsHandshake, U.Toggle, U.ResetToggling;
  }

  /** What a step leaves to do. */
  function OneLess(n: nat, e: Event): nat {
    if e.Step? && n > 0 then n - 1 else n
  }

  lemma SettleNext(start: System, j: Joint, e: Event)
    requires JointInv(start, j) && e.Valid() && NoData(e) && Obeys(j, e)
    ensures ToSettle(Next(j, e)) <= OneLess(ToSettle(j), e)
  {
    hide Inv, Runs.LegalRun, Runs.Run, Runs.Next, Turn, Runs.Legal, U.Main, U.Interrupt, B.FreeInv, B.TestFree,
         C.Tx0Fits, C.Sent0Right, C.Counted, Taken, Outs, OnItsWay, RunMatches;
    if e.Bus? {
      TokenShape(j.usb, e.arrival);
    } else if PassDue(j) {
      PassShape(start, j, e);
    } else {
      DriverShape(start, j, e);
      MainOrder(j.usb, U.Choice(e.reply, e.reset, None));
    }
  }

  // ---------------------------------------------------- packets owed are handed over

  /** Packets the host has still to hear. */
  function Unheard(j: Joint): int {
    |j.sys.host.answers| - |j.heard|
  }

  /** Steps of the main program until a packet waits on endpoint 1, at most, if one is owed. */
  function ToLoad(j: Joint): (n: nat)
    ensures n <= 43
  {
    if !U.IsHandshake(j.usb.tx1.len) then 0
    else if U.InSend(j.usb.pc) then Left(j) - 29
    else Left(j) + 14
  }

  /** A packet waits only between the calls. */
  lemma WaitsBetween(u: U.State)
    requires B.FreeInv(u) && B.TestFree(u)
    ensures !U.IsHandshake(u.tx1.len) ==> !U.InSend(u.pc)
    ensures !u.pc.SiAbort? && |u.log.loaded| == |u.log.sent1| + (if U.IsHandshake(u.tx1.len) then 0 else 1)
  {}

  /** The main program leaves a waiting packet where it is, and completes the call under way. */
  lemma MainTx1(u: U.State, c: U.Choice)
    requires B.FreeInv(u) && B.TestFree(u) && c.Valid() && !u.pc.SetupReply?
    ensures
      var r := U.Main(u, c, true);
      && r.log.sent1 == u.log.sent1
      && (!U.InSend(u.pc) ==> r.tx1 == u.tx1)
      && (U.InSend(u.pc) && !U.InSend(r.pc) ==> !U.IsHandshake(r.tx1.len))
  {
    hide Splice, U.Toggle, B.Sound, B.Sent1Right, U.Frame;
  }

  /** A pass without a packet from the host changes nothing for the host. */
  lemma QuietPass(start: System, j: Joint, e: Event)
    requires JointInv(start, j) && Still(j) && e.Valid() && e.Step? && PassDue(j)
    ensures
      var t := Next(j, e);
      && t.sys.host == j.sys.host && Still(t) && t.usb == j.usb.(pc := t.usb.pc) && Unheard(t) == Unheard(j)
      && (Unheard(j) > 0 ==> ToLoad(t) <= OneLess(ToLoad(j), e))
  {
    hide C.ControlInv, B.FreeInv, B.TestFree, Inv, Runs.LegalRun, Runs.Run, Turn, Runs.Legal, Taken, Outs, RunMatches,
         CallFor;
    PassShape(start, j, e);
    WaitsBetween(j.usb);
    Runs.OneLoadPerTurn(j.sys, PassInput(j, e.busOk));
    Runs.AnswersSplit(j.sys);
  }

  lemma QuietToken(j: Joint, a: U.Arrival)
    requires j.Valid() && a.Valid() && NoData(Bus(a))
    ensures
      var t := Next(j, Bus(a));
      && t.sys == j.sys && Unheard(t) <= Unheard(j)
      && (Unheard(t) == Unheard(j) ==> ToLoad(t) == ToLoad(j))
  {
    hide U.Interrupt, StepsLeft, U.IsHandshake, Wire.IsData;
    TokenShape(j.usb, a);
    Wire.AnswerIsLogged(j.usb, a);
  }

  lemma QuietStep(start: System, j: Joint, e: Event)
    requires JointInv(start, j) && Still(j) && e.Valid() && e.Step? && !PassDue(j)
    ensures
      var t := Next(j, e);
      t.sys == j.sys && Unheard(t) == Unheard(j) && ToLoad(t) <= OneLess(ToLoad(j), e)
  {
    hide C.ControlInv, B.FreeInv, B.TestFree, Inv, U.Main, StepsLeft, JointInv, U.IsHandshake;
    InvParts(start, j);
    DriverShape(start, j, e);
    var c := U.Choice(e.reply, e.reset, None);
    WaitsBetween(j.usb);
    MainTx1(j.usb, c);
    MainOrder(j.usb, c);
    SendEnds(j.usb.pc, j.called);
  }

  lemma SendEnds(pc: U.Pc, called: bool)
    ensures U.InSend(pc) <==> StepsLeft(pc, called) > 29
  {}

  /** While nothing comes from the host and it has not heard all, each step leads to the next
      packet's waiting; only the host takes it. */
  lemma LoadNext(start: System, j: Joint, e: Event)
    requires JointInv(start, j) && Still(j) && e.Valid() && NoData(e)
    ensures
      var t := Next(j, e);
      && JointInv(start, t) && Still(t) && t.sys.host == j.sys.host && Unheard(t) <= Unheard(j)
      && (Unheard(t) == Unheard(j) > 0 ==> ToLoad(t) <= OneLess(ToLoad(j), e))
  {
    hide JointInv, Next, ToLoad, Joint.Valid;
    InvParts(start, j);
    NextKeeps(start, j, e);
    SettleNext(start, j, e);
    if e.Bus? {
      QuietToken(j, e.arrival);
    } else if PassDue(j) {
      QuietPass(start, j, e);
    } else {
      QuietStep(start, j, e);
    }
  }

  lemma InvParts(start: System, j: Joint)
    requires JointInv(start, j)
    ensures j.Valid() && B.FreeInv(j.usb) && B.TestFree(j.usb) && LoadsMatch(j)
    ensures j.usb.rx.len == 0 ==> !j.usb.pc.SetupReply? && !j.usb.pc.Release?
  {}

  // ------------------------------------------------------------------- whole runs

  lemma {:induction false} RunAppend(j: Joint, es: seq<Event>, more: seq<Event>)
    requires j.Valid() && ValidEvents(es) && ValidEvents(more)
    ensures ValidEvents(es + more) && Run(j, es + more) == Run(Run(j, es), more)
    decreases |more|
  {
    hide Next, Joint.Valid;
    if more == [] {
      assert es + more == es;
    } else {
      var n := |more| - 1;
      RunAppend(j, es, more[..n]);
      assert (es + more)[..|es| + n] == es + more[..n];
    }
  }

  lemma {:induction false} SettleRun(start: System, j: Joint, es: seq<Event>)
    requires JointInv(start, j) && ValidEvents(es) && NoDataIn(es) && Obedient(j, es)
    ensures
      var t := Run(j, es);
      JointInv(start, t) && (ToSettle(t) + StepsIn(es) <= ToSettle(j) || ToSettle(t) == 0)
    decreases |es|
  {
    hide JointInv, Next, ToSettle, Obeys, NoData, Joint.Valid;
    InvValid(start, j);
    if es != [] {
      var n := |es| - 1;
      SettleRun(start, j, es[..n]);
      InvValid(start, Run(j, es[..n]));
      NextKeeps(start, Run(j, es[..n]), es[n]);
      SettleNext(start, Run(j, es[..n]), es[n]);
    }
  }

  lemma {:induction false} StillRun(start: System, j: Joint, es: seq<Event>)
    requires JointInv(start, j) && Still(j) && ValidEvents(es) && NoDataIn(es)
    ensures
      var t := Run(j, es);
      && JointInv(start, t) && Still(t) && t.sys.host == j.sys.host && Unheard(t) <= Unheard(j)
      && (Unheard(t) == Unheard(j) > 0 ==> ToLoad(t) + StepsIn(es) <= ToLoad(j) || ToLoad(t) == 0)
    decreases |es|
  {
    hide JointInv, Next, ToLoad, Still, Unheard, NoData, Joint.Valid;
    InvValid(start, j);
    if es != [] {
      var n := |es| - 1;
      StillRun(start, j, es[..n]);
      InvValid(start, Run(j, es[..n]));
      LoadNext(start, Run(j, es[..n]), es[n]);
    }
  }

  /** An IN token for this device: identifier 0x69, and an endpoint other than 0. */
  predicate AsksOne(a: U.Arrival) {
    a.Valid() && !a.overflow && a.mine && Wire.IsToken(a.raw, 0x69, NumberIn(a.raw)) && NumberIn(a.raw) != 0
  }

  /** The endpoint number in a token packet. */
  function NumberIn(raw: seq<byte>): byte {
    if |raw| < 3 then 0 else ((raw[2] & 7) << 1) | (raw[1] >> 7)
  }

  lemma TokenHears(start: System, j: Joint, a: U.Arrival)
    requires JointInv(start, j) && Still(j) && AsksOne(a) && ToLoad(j) == 0
    ensures Unheard(Next(j, Bus(a))) == Unheard(j) - 1
  {
    hide C.ControlInv, B.FreeInv, B.TestFree, Inv, JointInv, U.Interrupt, U.IsHandshake, StepsLeft,
         Wire.IsToken, Wire.Pid;
    InvParts(start, j);
    SendEnds(j.usb.pc, j.called);
    Wire.Identifiers();
    Wire.InAnswered(j.usb, a, NumberIn(a.raw));
  }

  lemma NothingMore(start: System, j: Joint)
    requires JointInv(start, j)
    ensures Unheard(j) >= 0 && (Unheard(j) == 0 ==> j.heard == j.sys.host.answers)
  {
    hide C.ControlInv, B.FreeInv, B.TestFree, Inv, Runs.Run, Runs.LegalRun, Logged;
    HeardIsSent(j);
    SentIsFront(j.sys);
  }

  /** Some time, and then an IN token. */
  datatype Round = Round(before: seq<Event>, token: U.Arrival) {
    predicate Valid() {
      ValidEvents(before) && NoDataIn(before) && StepsIn(before) >= 43 && AsksOne(token)
    }

    function Events(): (es: seq<Event>)
      requires Valid()
      ensures ValidEvents(es)
    {
      before + [Bus(token)]
    }
  }

  predicate ValidRounds(rs: seq<Round>) {
    forall i :: 0 <= i < |rs| ==> rs[i].Valid()
  }

  function Flat(rs: seq<Round>): (es: seq<Event>)
    requires ValidRounds(rs)
    ensures ValidEvents(es)
  {
    if rs == [] then [] else AllEvents(Flat(rs[..|rs| - 1]), rs[|rs| - 1].Events())
  }

  function AllEvents(es: seq<Event>, more: seq<Event>): (all: seq<Event>)
    requires ValidEvents(es) && ValidEvents(more)
    ensures ValidEvents(all) && all == es + more
  {
    es + more
  }

  lemma RunOneMore(j: Joint, es: seq<Event>, e: Event)
    requires j.Valid() && ValidEvents(es) && e.Valid()
    ensures ValidEvents(es + [e]) && Run(j, es + [e]) == Next(Run(j, es), e)
  {
    hide Next, Joint.Valid;
    assert (es + [e])[..|es|] == es;
  }

  /** A round takes the host one packet further. */
  lemma RoundHears(start: System, j: Joint, r: Round)
    requires JointInv(start, j) && Still(j) && r.Valid()
    ensures
      var t := Run(j, r.Events());
      && JointInv(start, t) && Still(t) && t.sys.host == j.sys.host
      && Unheard(t) <= (if Unheard(j) > 0 then Unheard(j) - 1 else 0)
  {
    hide JointInv, Next, Run, ToLoad, Still, Unheard, Joint.Valid, AsksOne, StepsIn;
    InvValid(start, j);
    var m := Run(j, r.before);
    StillRun(start, j, r.before);
    InvValid(start, m);
    TokenIsNoData(r.token);
    RunOneMore(j, r.before, Bus(r.token));
    LoadNext(start, m, Bus(r.token));
    NothingMore(start, j);
    if Unheard(m) == Unheard(j) > 0 {
      TokenHears(start, m, r.token);
    }
  }

  lemma TokenIsNoData(a: U.Arrival)
    requires AsksOne(a)
    ensures NoData(Bus(a)) && Bus(a).Valid()
  {}

  /** From any state with nothing on its way to the disk: as many rounds as there are packets
      unheard, and the host has heard every answer. */
  lemma {:induction false} AllHeard(start: System, j: Joint, rs: seq<Round>)
    requires JointInv(start, j) && Still(j) && ValidRounds(rs)
    ensures
      var t := Run(j, Flat(rs));
      && JointInv(start, t) && Still(t) && t.sys.host == j.sys.host
      && Unheard(t) <= (if |rs| < Unheard(j) then Unheard(j) - |rs| else 0)
      && (|rs| >= Unheard(j) ==> t.heard == j.sys.host.answers)
    decreases |rs|
  {
    hide JointInv, Next, Run, Still, Unheard, Joint.Valid, Round.Valid, Round.Events;
    InvValid(start, j);
    NothingMore(start, j);
    if rs == [] {
      RunNone(j);
    } else {
      var n := |rs| - 1;
      AllHeard(start, j, rs[..n]);
      var m := Run(j, Flat(rs[..n]));
      InvValid(start, m);
      RunAppend(j, Flat(rs[..n]), rs[n].Events());
      RoundHears(start, m, rs[n]);
      NothingMore(start, Run(j, Flat(rs)));
    }
  }

  lemma RunNone(j: Joint)
    requires j.Valid()
    ensures Run(j, []) == j
  {}

  /** End to end, and live: after any interleaving from power-up with an obedient host, let
      nothing but tokens and handshakes come, for 57 steps of the main program and then for as
      many rounds as packets are unheard. The passes took exactly the OUT packets that the
      device acknowledged, and the host heard exactly the answers to the commands they make
      up. */
  lemma EverythingHeard(eeprom: seq<byte>, usb: U.State, es: seq<Event>, calm: seq<Event>, rs: seq<Round>)
    requires |eeprom| == RAM_SIZE && U.Initial(usb) && ValidEvents(es) && Obedient(Start(eeprom, usb), es)
    requires ValidEvents(calm) && NoDataIn(calm) && StepsIn(calm) >= 57
    requires Obedient(Run(Start(eeprom, usb), es), calm)
    requires ValidRounds(rs) && |rs| >= Unheard(Run(Run(Start(eeprom, usb), es), calm))
    ensures
      var t := Run(Start(eeprom, usb), es + calm + Flat(rs));
      && Faithful(eeprom, t) && Taken(t.inputs) == Outs(t.accepted)
      && t.heard ==
         Commands.Laid(Commands.Answers(eeprom, Zeros(DATA_LENGTH), Commands.Completed(Runs.PowerUp(eeprom), t.inputs)))
  {
    hide JointInv, Next, Run, Still, Unheard, Joint.Valid, Round.Valid, StepsIn, ToSettle, Obedient, Start,
         Runs.PowerUp, U.Initial, Faithful, Taken, Outs;
    var start, j := Runs.PowerUp(eeprom), Start(eeprom, usb);
    Started(eeprom, usb);
    RunKeeps(start, j, es);
    var m := Run(j, es);
    InvValid(start, m);
    SettleRun(start, m, calm);
    var s := Run(m, calm);
    RunAppend(j, es, calm);
    RunAppend(j, es + calm, Flat(rs));
    AllHeard(start, s, rs);
    var t := Run(s, Flat(rs));
    InvIsFaithful(eeprom, t);
    AnswersLaid(eeprom, t);
    StillTaken(start, t);
  }

  lemma RunFacts(start: System, j: Joint)
    requires JointInv(start, j)
    ensures Runs.LegalRun(start, j.inputs) && j.sys == Runs.Run(start, j.inputs)
  {}

  lemma AnswersLaid(eeprom: seq<byte>, j: Joint)
    requires |eeprom| == RAM_SIZE && JointInv(Runs.PowerUp(eeprom), j)
    ensures
      var cs := Commands.Completed(Runs.PowerUp(eeprom), j.inputs);
      && Commands.AllValid(cs)
      && Commands.Tagged(Commands.Answers(eeprom, Zeros(DATA_LENGTH), cs))
      && j.sys.host.answers == Commands.Laid(Commands.Answers(eeprom, Zeros(DATA_LENGTH), cs))
  {
    RunFacts(Runs.PowerUp(eeprom), j);
    hide *;
    Commands.EveryCommandAnswered(eeprom, j.inputs);
  }

  lemma StillTaken(start: System, j: Joint)
    requires JointInv(start, j) && Still(j)
    ensures AllValid(j.inputs) && Taken(j.inputs) == Outs(j.accepted)
  {
    hide Inv, B.FreeInv, B.TestFree, Runs.LegalRun, Runs.Run, LoadsMatch, Outs, Taken;
    AckedSplit(j.usb);
    assert j.usb.log.processed + [] == j.usb.log.processed;
  }

  // ------------------------------------------------------- the next OUT packet is taken

  /** Steps of the main program until the receive buffer is free, at most. */
  function ToFree(j: Joint): (n: nat)
    ensures n <= 43
  {
    if j.usb.rx.len == 0 then 0
    else if U.InBuild(j.usb.pc) || PassDue(j) then Left(j) + 30
    else if Left(j) >= 14 then Left(j) - 13
    else 1
  }

  /** While the buffer is taken, no packet on the bus changes that. */
  lemma BusyShape(u: U.State, a: U.Arrival)
    requires u.Valid() && a.Valid() && u.rx.len > 0
    ensures U.Interrupt(u, a).0.rx.len == u.rx.len
  {
    hide Splice, U.Endpoint, U.IsHandshake, U.Setups;
  }

  lemma FreeNext(start: System, j: Joint, e: Event)
    requires JointInv(start, j) && e.Valid() && Obeys(j, e) && j.usb.rx.len > 0
    ensures ToFree(Next(j, e)) <= OneLess(ToFree(j), e)
  {
    hide Inv, Runs.LegalRun, Runs.Run, Runs.Next, Turn, Runs.Legal, U.Main, U.Interrupt, B.FreeInv, B.TestFree,
         C.Tx0Fits, C.Sent0Right, C.Counted, Taken, Outs, OnItsWay, RunMatches, Wire.AcceptedNow, Logged;
    if e.Bus? {
      BusyShape(j.usb, e.arrival);
    } else if PassDue(j) {
      PassShape(start, j, e);
    } else {
      DriverShape(start, j, e);
      MainOrder(j.usb, U.Choice(e.reply, e.reset, None));
      LeftAfter(j.usb, U.Choice(e.reply, e.reset, None), j.called);
    }
  }

  /** Below 14 steps the packet has been processed. */
  lemma LeftAfter(u: U.State, c: U.Choice, called: bool)
    requires u.Valid() && c.Valid()
    ensures U.InBuild(u.pc) || u.pc.App? || StepsLeft(u.pc, called) >= 14
    ensures U.InBuild(u.pc) ==> StepsLeft(u.pc, called) <= 13
  {}

  lemma {:induction false} NotFreeYet(start: System, j: Joint, es: seq<Event>)
    requires JointInv(start, j) && ValidEvents(es) && Obedient(j, es)
    requires forall k :: 0 <= k < |es| ==> Run(j, es[..k]).usb.rx.len > 0
    ensures JointInv(start, Run(j, es))
    ensures ToFree(Run(j, es)) <= (if ToFree(j) > StepsIn(es) then ToFree(j) - StepsIn(es) else 0)
    decreases |es|
  {
    hide JointInv, Next, ToFree, Obeys, Joint.Valid;
    InvValid(start, j);
    if es != [] {
      var n := |es| - 1;
      forall k | 0 <= k < n ensures Run(j, es[..n][..k]).usb.rx.len > 0 {
        assert es[..n][..k] == es[..k];
      }
      NotFreeYet(start, j, es[..n]);
      var t := Run(j, es[..n]);
      assert t.usb.rx.len > 0;
      InvValid(start, t);
      NextKeeps(start, t, es[n]);
      FreeNext(start, t, es[n]);
    }
  }

  /** Whatever comes on the bus: after at most 43 steps of the main program there was a moment
      when the receive buffer was free, and a data packet announced by a token would have been
      acknowledged. */
  lemma BufferFrees(start: System, j: Joint, es: seq<Event>)
    requires JointInv(start, j) && ValidEvents(es) && Obedient(j, es) && StepsIn(es) >= 43
    ensures j.Valid() && exists k :: 0 <= k <= |es| && Run(j, es[..k]).usb.rx.len == 0
  {
    hide JointInv, Run, StepsIn, Joint.Valid, Obedient, Left, PassDue;
    InvValid(start, j);
    if forall k :: 0 <= k < |es| ==> Run(j, es[..k]).usb.rx.len > 0 {
      NotFreeYet(start, j, es);
      assert es[..|es|] == es;
      FreeNone(Run(j, es));
    }
  }

  lemma FreeNone(j: Joint)
    requires ToFree(j) == 0
    ensures j.usb.rx.len == 0
  {}

  /** Tokens and handshakes bring nothing that could be acknowledged. */
  lemma {:induction false} CalmAccepts(j: Joint, es: seq<Event>)
    requires j.Valid() && ValidEvents(es) && NoDataIn(es)
    ensures Run(j, es).accepted == j.accepted
    decreases |es|
  {
    hide Joint.Valid, NoData, Next;
    if es != [] {
      var n := |es| - 1;
      CalmAccepts(j, es[..n]);
      CalmNext(Run(j, es[..n]), es[n]);
    }
  }

  lemma CalmNext(j: Joint, e: Event)
    requires j.Valid() && e.Valid() && NoData(e)
    ensures Next(j, e).accepted == j.accepted
  {
    hide U.Interrupt, U.Main, Turn, Runs.Next, CallFor, Delivered;
  }

  /** An OUT token for endpoint `e` of this device, and a data packet with data. */
  predicate Announces(a: U.Arrival, endpoint: byte) {
    a.Valid() && !a.overflow && a.mine && Wire.IsToken(a.raw, 0xe1, endpoint) && endpoint != 0
  }

  predicate Carries(a: U.Arrival) {
    a.Valid() && Wire.IsData(a) && |a.raw| >= 4
  }

  lemma OutAccepted(start: System, j: Joint, token: U.Arrival, endpoint: byte, data: U.Arrival)
    requires JointInv(start, j) && Still(j) && Announces(token, endpoint) && Carries(data)
    ensures
      var t := Next(j, Bus(token));
      && JointInv(start, t) && Still(t) && t.inputs == j.inputs && t.accepted == j.accepted
      && U.Interrupt(t.usb, data).1 == U.Handshake(0xd2)
      && var r := Next(t, Bus(data));
         && JointInv(start, r) && r.inputs == j.inputs
         && r.accepted == j.accepted + [U.Packet(endpoint, Wire.DataIn(data.raw))]
  {
    hide JointInv, U.Interrupt, Wire.Pid, Wire.IsData, Wire.IsToken;
    Wire.Identifiers();
    InvParts(start, j);
    Wire.TokenAnnounces(j.usb, token, 0xe1, endpoint);
    TokenNoData(token, endpoint);
    NextKeeps(start, j, Bus(token));
    CalmNext(j, Bus(token));
    var t := Next(j, Bus(token));
    InvParts(start, t);
    Wire.DataAnswered(t.usb, data);
    NextKeeps(start, t, Bus(data));
  }

  lemma TokenNoData(a: U.Arrival, endpoint: byte)
    requires Announces(a, endpoint)
    ensures !Wire.IsData(a) && endpoint < 0x10 && Bus(a).Valid()
  {}

  /** From any reachable state: after 57 steps of the main program without data on the bus, an
      OUT token and a data packet are acknowledged, whatever they carry; and after 57 more, a
      pass of the main loop has taken just that packet, behind all that was acknowledged
      before. */
  lemma OutPacketTaken(start: System, j: Joint, calm: seq<Event>, token: U.Arrival, endpoint: byte, data: U.Arrival,
                       more: seq<Event>)
    requires JointInv(start, j) && ValidEvents(calm) && NoDataIn(calm) && Obedient(j, calm) && StepsIn(calm) >= 57
    requires Announces(token, endpoint) && Carries(data)
    requires ValidEvents(more) && NoDataIn(more) && StepsIn(more) >= 57
    requires j.Valid() && Obedient(Next(Next(Run(j, calm), Bus(token)), Bus(data)), more)
    ensures
      var s := Next(Run(j, calm), Bus(token));
      var t := Run(Next(s, Bus(data)), more);
      && AllValid(s.inputs) && AllValid(t.inputs) && Taken(s.inputs) == Outs(j.accepted)
      && U.Interrupt(s.usb, data).1 == U.Handshake(0xd2)
      && Taken(t.inputs) == Taken(s.inputs) + [Wire.DataIn(data.raw)]
  {
    hide JointInv, Next, Run, Still, Joint.Valid, StepsIn, ToSettle, Obedient, Announces, Taken, Outs, NoDataIn,
         Wire.IsData;
    SettleRun(start, j, calm);
    CalmAccepts(j, calm);
    var m := Run(j, calm);
    InvValid(start, m);
    StillTaken(start, m);
    OutAccepted(start, m, token, endpoint, data);
    TokenNoData(token, endpoint);
    var s := Next(m, Bus(token));
    var r := Next(s, Bus(data));
    SettleRun(start, r, more);
    CalmAccepts(r, more);
    StillTaken(start, Run(r, more));
    OutsAdd(j.accepted, U.Packet(endpoint, Wire.DataIn(data.raw)));
  }
}
