/** Disk and driver together: one state, every interleaving of bus interrupts with the main
    program, whose passes do what Runs says between the steps that UsbMachine says. */
module Joint {
  import opened Bytes
  import opened Device
  import opened Disk
  import opened System
  import opened Runs
  import U = UsbMachine
  import R = UsbReceive
  import C = UsbControl
  import B = UsbBulkIn
  import UsbRuns
  import Wire
  import Commands

  /** The disk's side; the driver's side; the OUT packet that `usbFunctionWriteOut` got in this
      pass, if any; whether the pass has made its call of `usbSetInterrupt`; the passes made so
      far. And the host's side, as the bus shows it: the data of the frames it got on endpoint
      1, the frames it got on endpoint 0, and the packets that were acknowledged to it, each for
      the endpoint of its token. */
  datatype Joint = Joint(
    sys: System, usb: U.State, arrived: Option<Received>, called: bool, inputs: seq<Input>,
    heard: seq<seq<byte>>, frames0: seq<seq<byte>>, accepted: seq<U.Packet>)
  {
    predicate Valid() {
      usb.Valid() && sys.dev.Valid() && sys.host.Valid() && (arrived.Some? ==> arrived.value.Valid())
    }
  }

  /** A packet on the bus, or a step of the main program: the reply to a SETUP, whether it
      resets the toggling, and the EEPROM's answer, where the step asks for them. */
  datatype Event = Bus(arrival: U.Arrival) | Step(reply: seq<byte>, reset: bool, busOk: bool) {
    predicate Valid() {
      match this
      case Bus(a) => a.Valid()
      case Step(reply, _, _) => |reply| <= 254
    }
  }

  // ------------------------------------------------------------------------ steps

  /** The data of an OUT packet is complete. */
  predicate Delivers(u: U.State) {
    u.pc.Reading? && |u.pc.got| == u.pc.n && u.rx.token < 0x10
  }

  /** What `usbFunctionWriteOut` is given: a place in the receive buffer, and a length. */
  function Delivered(u: U.State): (p: Received)
    requires u.Valid() && Delivers(u)
    ensures p.Valid()
  {
    Received(u.rx.buf[u.pc.ptr..u.pc.ptr + 8], u.pc.n)
  }

  /** The main loop reaches `usbInterruptIsReady`. The rest of the pass touches nothing of the
      driver but the one call it may make, so it is a single step. */
  predicate PassDue(j: Joint) {
    j.usb.pc.App? && !j.called
  }

  function PassInput(j: Joint, busOk: bool): Input {
    Input(j.arrived, U.IsHandshake(j.usb.tx1.len), busOk)
  }

  /** `usbSetInterrupt(data, len)` copies a first byte even of an empty packet. */
  function CallFor(load: seq<byte>): (seq<byte>, nat) {
    (if load == [] then [0] else load, |load|)
  }

  /** One step; a pass whose packet no obedient host sends is not modelled. */
  function Next(j: Joint, e: Event): (r: Joint)
    requires j.Valid() && e.Valid()
    ensures r.Valid()
  {
    match e
    case Bus(a) =>
      var (u, answer) := U.Interrupt(j.usb, a);
      j.(usb := u, heard := j.heard + HeardNow(answer),
         frames0 := j.frames0 + if answer.Data0? then [answer.frame] else [],
         accepted := j.accepted + Wire.AcceptedNow(j.usb, a))
    case Step(reply, reset, busOk) =>
      var c := U.Choice(reply, reset, None);
      if PassDue(j) then
        var input := PassInput(j, busOk);
        if !Legal(j.sys, input) then j
        else
          var loads := Turn(j.sys.dev, input).1;
          LoadsFit(j.sys.dev, input);
          j.(sys := Runs.Next(j.sys, input), arrived := None, called := loads != [], inputs := j.inputs + [input],
             usb := U.Main(j.usb, if loads == [] then c else c.(call := Some(CallFor(loads[0]))), true))
      else
        j.(usb := U.Main(j.usb, c, true), called := j.called && !j.usb.pc.App?,
           arrived := if Delivers(j.usb) then Some(Delivered(j.usb)) else j.arrived)
  }

  lemma LoadsFit(d: Device, input: Input)
    requires d.Valid() && input.Valid()
    ensures forall load :: load in Turn(d, input).1 ==> |load| <= 8 && U.ValidCall(CallFor(load).0, CallFor(load).1)
  {
    hide Poll, CommandTurn, Flush, SendNextData, ExecuteRead;
    var d := Poll(d, input.packet);
    ChunkFits(d.out);
    ReadFits(d.(out := SendNextData(d.out).0));
  }

  lemma ChunkFits(out: Outgoing)
    requires out.Valid()
    ensures SendNextData(out).1.Some? ==> |SendNextData(out).1.value| <= 8
  {}

  lemma ReadFits(d: Device)
    requires d.Valid()
    ensures ExecuteRead(d).1.Some? ==> |ExecuteRead(d).1.value| <= 8
  {
    hide SendStatus;
  }

  function Run(j: Joint, es: seq<Event>): (r: Joint)
    requires j.Valid() && ValidEvents(es)
    ensures r.Valid()
    decreases |es|
  {
    if es == [] then j else Next(Run(j, es[..|es| - 1]), es[|es| - 1])
  }

  predicate ValidEvents(es: seq<Event>) {
    forall i :: 0 <= i < |es| ==> es[i].Valid()
  }

  // --------------------------------------------------------------- what is observed

  /** What an answer on the bus tells the host on endpoint 1. */
  function HeardNow(answer: U.Answer): seq<seq<byte>> {
    if answer.Data1? then [Wire.DataIn(answer.frame)] else []
  }

  /** The data of frames of endpoint 1. */
  function Logged(sent: seq<U.Sent1>): (h: seq<seq<byte>>)
    ensures |h| == |sent|
    ensures forall i :: 0 <= i < |sent| ==> h[i] == Wire.DataIn(sent[i].frame)
  {
    if sent == [] then [] else Logged(sent[..|sent| - 1]) + [Wire.DataIn(sent[|sent| - 1].frame)]
  }

  /** The data of the OUT packets for other endpoints than 0. */
  function Outs(ps: seq<U.Packet>): seq<seq<byte>> {
    if ps == [] then []
    else Outs(ps[..|ps| - 1]) + if ps[|ps| - 1].token < 0x10 then [ps[|ps| - 1].data] else []
  }

  predicate AllValid(inputs: seq<Input>) {
    forall i :: 0 <= i < |inputs| ==> inputs[i].Valid()
  }

  /** The packets the passes took. */
  function Taken(inputs: seq<Input>): seq<seq<byte>>
    requires AllValid(inputs)
  {
    if inputs == [] then []
    else
      var input := inputs[|inputs| - 1];
      Taken(inputs[..|inputs| - 1]) + if input.packet.Some? then [input.packet.value.Bytes()] else []
  }

  /** The host obeys the transport, judged by what it received on the bus. */
  predicate Obeys(j: Joint, e: Event)
    requires j.Valid()
  {
    e.Step? && PassDue(j) && j.arrived.Some? ==> MaySend(j.sys.host, j.heard, j.arrived.value)
  }

  predicate Obedient(j: Joint, es: seq<Event>)
    requires j.Valid() && ValidEvents(es)
    decreases |es|
  {
    es == [] || (Obedient(j, es[..|es| - 1]) && Obeys(Run(j, es[..|es| - 1]), es[|es| - 1]))
  }

  // -------------------------------------------------------------------- invariants

  /** The calls completed are the packets the disk's side sent, but for the one on its way. */
  predicate LoadsMatch(j: Joint) {
    && (j.called ==> U.InSend(j.usb.pc) || j.usb.pc.App?) && (U.InSend(j.usb.pc) ==> j.called)
    && j.sys.sent == j.usb.log.loaded + OnItsWay(j.usb.pc)
  }

  function OnItsWay(pc: U.Pc): seq<seq<byte>> {
    match pc
    case SiTest(src, size) => if size <= |src| then [src[..size]] else []
    case SiToggle(src, size) => if size <= |src| then [src[..size]] else []
    case SiAbort(src, size) => if size <= |src| then [src[..size]] else []
    case SiCopy(src, size, _) => if size <= |src| then [src[..size]] else []
    case SiCrc(src, size) => if size <= |src| then [src[..size]] else []
    case SiReady(src, size) => if size <= |src| then [src[..size]] else []
    case _ => []
  }

  /** The OUT packets processed are those the passes took, and the one that waits for its
      pass. */
  predicate PacketsMatch(j: Joint)
    requires j.Valid() && AllValid(j.inputs)
  {
    && (j.arrived.Some? ==> !j.called && (j.usb.pc.Release? || U.InBuild(j.usb.pc) || j.usb.pc.App?))
    && Outs(j.usb.log.processed) ==
       Taken(j.inputs) + if j.arrived.Some? then [j.arrived.value.Bytes()] else []
  }

  /** The disk's side made a legal run of the passes. */
  predicate RunMatches(start: System, j: Joint) {
    && start.dev.Valid() && start.host.Valid() && LegalRun(start, j.inputs) && j.sys == Runs.Run(start, j.inputs)
    && AllValid(j.inputs)
  }

  /** The driver's histories are what the bus showed. */
  predicate BusMatches(j: Joint) {
    && j.heard == Logged(j.usb.log.sent1) && j.accepted == j.usb.log.acked
    && |j.frames0| == |j.usb.log.sent0| && forall i :: 0 <= i < |j.frames0| ==> j.frames0[i] == j.usb.log.sent0[i].frame
  }

  ghost predicate JointInv(start: System, j: Joint) {
    && j.Valid() && Inv(j.sys) && RunMatches(start, j) && LoadsMatch(j) && PacketsMatch(j)
    && C.ControlInv(j.usb) && B.FreeInv(j.usb) && B.TestFree(j.usb) && BusMatches(j)
  }

  // ------------------------------------------------------------------- small steps

  lemma OutsAdd(ps: seq<U.Packet>, p: U.Packet)
    ensures Outs(ps + [p]) == Outs(ps) + if p.token < 0x10 then [p.data] else []
  {
    assert (ps + [p])[..|ps|] == ps;
  }

  lemma TakenAdd(inputs: seq<Input>, input: Input)
    requires AllValid(inputs) && input.Valid()
    ensures AllValid(inputs + [input])
    ensures Taken(inputs + [input]) == Taken(inputs) + if input.packet.Some? then [input.packet.value.Bytes()] else []
  {
    assert (inputs + [input])[..|inputs|] == inputs;
  }

  lemma {:induction false} RunOn(start: System, inputs: seq<Input>, input: Input)
    requires start.dev.Valid() && start.host.Valid() && LegalRun(start, inputs)
    requires Legal(Runs.Run(start, inputs), input)
    ensures LegalRun(start, inputs + [input])
    ensures Runs.Run(start, inputs + [input]) == Runs.Next(Runs.Run(start, inputs), input)
    decreases |inputs|
  {
    hide Legal, Runs.Next;
    if inputs == [] {
      assert [] + [input] == [input] && [input][1..] == [];
    } else {
      RunOn(Runs.Next(start, inputs[0]), inputs[1..], input);
      assert (inputs + [input])[1..] == inputs[1..] + [input];
    }
  }

  /** The host hears the front of what was sent; at most one packet is still on its way. */
  lemma HeardIsSent(j: Joint)
    requires B.FreeInv(j.usb) && B.TestFree(j.usb) && LoadsMatch(j) && BusMatches(j)
    ensures j.heard <= j.sys.sent && |j.sys.sent| <= |j.heard| + 1
  {
    var sent, loaded := j.usb.log.sent1, j.usb.log.loaded;
    forall i | 0 <= i < |sent| ensures j.heard[i] == loaded[i] {
      Wire.FramePasses(sent[i].frame[0], loaded[sent[i].load]);
    }
  }

  /** Obedience on the bus is obedience towards the main loop: a host that heard everything it
      is owed was sent everything. */
  lemma ObedientIsLegal(start: System, j: Joint, busOk: bool)
    requires JointInv(start, j) && Obeys(j, Step([], false, busOk)) && PassDue(j)
    ensures Legal(j.sys, PassInput(j, busOk))
  {
    hide C.ControlInv, B.FreeInv, B.TestFree, Inv, InRange;
    HeardIsSent(j);
    SentIsFront(j.sys);
  }

  lemma SentIsFront(s: System)
    requires Inv(s)
    ensures s.sent <= s.host.answers
  {
    AnswersSplit(s);
  }

  // -------------------------------------------------------------------- invariance

  lemma BusKeeps(start: System, j: Joint, a: U.Arrival)
    requires JointInv(start, j) && a.Valid()
    ensures JointInv(start, Next(j, Bus(a)))
  {
    hide C.ControlInv, B.FreeInv, B.TestFree, Inv, LegalRun, Runs.Run;
    FreeFacts(j.usb);
    C.InterruptKeepsControl(j.usb, a);
    B.InterruptKeepsBulk(j.usb, a);
    BusLeaves(j.usb, a);
    BusShows(j, a);
  }

  lemma BusShows(j: Joint, a: U.Arrival)
    requires j.Valid() && a.Valid() && BusMatches(j)
    ensures BusMatches(Next(j, Bus(a)))
  {
    hide U.Interrupt, Wire.AcceptedNow, U.State.Valid, Device.Valid, Disk.Valid, Wire.DataIn;
    Wire.AnswerIsLogged(j.usb, a);
    Wire.AcceptedIsStored(j.usb, a);
    var r := U.Interrupt(j.usb, a).0;
    assert j.heard + [] == j.heard;
    if r.log.sent1 != j.usb.log.sent1 {
      assert r.log.sent1[..|r.log.sent1| - 1] == j.usb.log.sent1;
    }
  }

  /** The main program sends nothing and acknowledges nothing. */
  lemma StepShows(j: Joint, e: Event)
    requires j.Valid() && e.Valid() && e.Step? && BusMatches(j)
    ensures BusMatches(Next(j, e))
  {
    hide U.Main, Logged, Turn, Runs.Next, CallFor, Delivered, U.State.Valid, Device.Valid, Disk.Valid;
    Wire.MainLogsNothing(j.usb, U.Choice(e.reply, e.reset, None), true);
    if PassDue(j) && Runs.Legal(j.sys, PassInput(j, e.busOk)) {
      var loads := Turn(j.sys.dev, PassInput(j, e.busOk)).1;
      LoadsFit(j.sys.dev, PassInput(j, e.busOk));
      if loads != [] {
        Wire.MainLogsNothing(j.usb, U.Choice(e.reply, e.reset, Some(CallFor(loads[0]))), true);
      }
    }
  }

  lemma FreeFacts(u: U.State)
    requires B.FreeInv(u)
    ensures B.BulkInv(u) && u.Valid()
  {}

  lemma BusLeaves(u: U.State, a: U.Arrival)
    requires u.Valid() && a.Valid()
    ensures
      var r := U.Interrupt(u, a).0;
      && r.pc == u.pc && r.log.loaded == u.log.loaded && r.log.processed == u.log.processed
  {
    hide U.Classify;
  }

  /** A step of the driver's own. */
  lemma MainLeaves(u: U.State, c: U.Choice)
    requires u.Valid() && c.Valid() && c.call == None
    ensures
      var r := U.Main(u, c, true);
      && u.log.loaded + OnItsWay(u.pc) == r.log.loaded + OnItsWay(r.pc)
      && (U.InSend(u.pc) ==> U.InSend(r.pc) || r.pc.App?) && (U.InSend(r.pc) ==> U.InSend(u.pc))
      && (u.pc.App? ==> r.pc.Poll?)
      && (u.pc.Release? || U.InBuild(u.pc) ==> U.InBuild(r.pc) || r.pc.App?)
      && (Delivers(u) ==> r.pc.Release?)
      && r.log.processed ==
         if u.pc.Reading? && |u.pc.got| == u.pc.n then u.log.processed + [U.Packet(u.rx.token, u.pc.got)]
         else u.log.processed
  {
    hide U.Receive, U.Build, U.Send;
    if U.InReceive(u.pc) {
      ReceiveLeaves(u, c);
    } else if U.InBuild(u.pc) {
      B.BuildLeaves(u);
    } else if U.InSend(u.pc) {
      SendLeaves(u);
    }
  }

  lemma ReceiveLeaves(u: U.State, c: U.Choice)
    requires u.Valid() && c.Valid() && U.InReceive(u.pc)
    ensures
      var r := U.Receive(u, c);
      && r.log.loaded == u.log.loaded && (U.InReceive(r.pc) || r.pc.TxTest?)
      && (u.pc.Release? ==> U.InBuild(r.pc)) && (Delivers(u) ==> r.pc.Release?)
      && r.log.processed ==
         if u.pc.Reading? && |u.pc.got| == u.pc.n then u.log.processed + [U.Packet(u.rx.token, u.pc.got)]
         else u.log.processed
  {
    hide U.ResetToggling, U.IsHandshake;
  }

  lemma SendLeaves(u: U.State)
    requires u.Valid() && U.InSend(u.pc)
    ensures
      var r := U.Send(u);
      && u.log.loaded + OnItsWay(u.pc) == r.log.loaded + OnItsWay(r.pc)
      && (U.InSend(r.pc) || r.pc.App?) && r.log.processed == u.log.processed
  {
    hide Splice, U.IsHandshake, U.Toggle;
  }

  lemma DriverKeeps(start: System, j: Joint, reply: seq<byte>, reset: bool, busOk: bool)
    requires JointInv(start, j) && |reply| <= 254 && !PassDue(j)
    ensures JointInv(start, Next(j, Step(reply, reset, busOk)))
  {
    hide C.ControlInv, B.FreeInv, B.TestFree, Inv, LegalRun, Runs.Run, U.Main, LoadsMatch, PacketsMatch,
         U.State.Valid, Device.Valid, Disk.Valid;
    var c := U.Choice(reply, reset, None);
    FreeFacts(j.usb);
    C.MainKeepsControl(j.usb, c, true);
    B.MainKeepsBulk(j.usb, c, true);
    StepLoads(j, reply, reset, busOk);
    StepPackets(j, reply, reset, busOk);
    StepShows(j, Step(reply, reset, busOk));
  }

  lemma StepLoads(j: Joint, reply: seq<byte>, reset: bool, busOk: bool)
    requires j.Valid() && |reply| <= 254 && !PassDue(j) && LoadsMatch(j)
    ensures LoadsMatch(Next(j, Step(reply, reset, busOk)))
  {
    hide OnItsWay, U.Main, Delivers, U.State.Valid, Device.Valid, Disk.Valid;
    MainLeaves(j.usb, U.Choice(reply, reset, None));
  }

  lemma StepPackets(j: Joint, reply: seq<byte>, reset: bool, busOk: bool)
    requires j.Valid() && |reply| <= 254 && !PassDue(j) && C.ControlInv(j.usb)
    requires AllValid(j.inputs) && LoadsMatch(j) && PacketsMatch(j)
    ensures PacketsMatch(Next(j, Step(reply, reset, busOk)))
  {
    hide C.ControlInv, OnItsWay, U.Main, Taken, Outs, Device.Valid, Disk.Valid;
    MainLeaves(j.usb, U.Choice(reply, reset, None));
    hide U.State.Valid;
    if j.usb.pc.Reading? && |j.usb.pc.got| == j.usb.pc.n {
      OutsAdd(j.usb.log.processed, U.Packet(j.usb.rx.token, j.usb.pc.got));
      if Delivers(j.usb) {
        DeliveredBytes(j.usb);
      }
    }
  }

  /** The bytes `usbFunctionWriteOut` may look at are those of the packet. */
  lemma DeliveredBytes(u: U.State)
    requires C.ControlInv(u) && Delivers(u)
    ensures Delivered(u).Bytes() == u.pc.got
  {}

  /** A pass of the main loop. */
  lemma PassKeeps(start: System, j: Joint, e: Event)
    requires JointInv(start, j) && e.Valid() && e.Step? && PassDue(j) && Obeys(j, e)
    ensures JointInv(start, Next(j, e))
  {
    hide C.ControlInv, B.FreeInv, B.TestFree, Inv, LegalRun, Runs.Run, Runs.Next, Turn, Legal, U.Main, Taken, Outs,
         U.State.Valid, Device.Valid, Disk.Valid, LoadsMatch, PacketsMatch, OnItsWay, CallFor;
    var input := PassInput(j, e.busOk);
    ObedientIsLegal(start, j, e.busOk);
    PassRun(start, j, input);
    var loads := Turn(j.sys.dev, input).1;
    LoadsFit(j.sys.dev, input);
    var c := U.Choice(e.reply, e.reset, if loads == [] then None else Some(CallFor(loads[0])));
    PassDriver(j, c);
    PassMatches(j, input, c, Next(j, e));
    StepShows(j, e);
  }

  lemma PassRun(start: System, j: Joint, input: Input)
    requires RunMatches(start, j) && Inv(j.sys) && Legal(j.sys, input)
    ensures Inv(Runs.Next(j.sys, input))
    ensures
      forall r: Joint :: r.sys == Runs.Next(j.sys, input) && r.inputs == j.inputs + [input] ==> RunMatches(start, r)
  {
    hide Inv, LegalRun, Runs.Run, Runs.Next;
    InvFacts(j.sys);
    TurnKeeps(j.sys, input);
    RunOn(start, j.inputs, input);
  }

  lemma PassDriver(j: Joint, c: U.Choice)
    requires C.ControlInv(j.usb) && B.FreeInv(j.usb) && B.TestFree(j.usb) && c.Valid()
    ensures
      var r := U.Main(j.usb, c, true);
      C.ControlInv(r) && B.FreeInv(r) && B.TestFree(r)
  {
    hide C.ControlInv, B.FreeInv, B.TestFree;
    FreeFacts(j.usb);
    C.MainKeepsControl(j.usb, c, true);
    B.MainKeepsBulk(j.usb, c, true);
  }

  lemma PassMatches(j: Joint, input: Input, c: U.Choice, r: Joint)
    requires j.Valid() && r.Valid() && AllValid(j.inputs) && LoadsMatch(j) && PacketsMatch(j) && PassDue(j)
    requires Inv(j.sys) && Legal(j.sys, input) && c.Valid()
    requires input.packet == j.arrived && input.ready == U.IsHandshake(j.usb.tx1.len)
    requires
      var loads := Turn(j.sys.dev, input).1;
      && c.call == (if loads == [] then None else Some(CallFor(loads[0])))
      && r.sys == Runs.Next(j.sys, input) && r.arrived == None && r.called == (loads != [])
      && r.inputs == j.inputs + [input] && r.usb == U.Main(j.usb, c, true)
    ensures LoadsMatch(r) && AllValid(r.inputs) && PacketsMatch(r)
  {
    hide Inv, Turn, U.Main, Taken, Outs, Runs.Next;
    OneLoad(j.sys, input);
    TakenAdd(j.inputs, input);
    AppLeaves(j.usb, c);
    var loads := Turn(j.sys.dev, input).1;
    if loads == [] {
      assert j.sys.sent + [] == j.sys.sent;
    } else {
      CallCarries(loads[0]);
    }
  }

  lemma OneLoad(s: System, input: Input)
    requires Inv(s) && Legal(s, input)
    ensures
      var loads := Turn(s.dev, input).1;
      |loads| <= 1 && (loads != [] ==> input.ready) && Runs.Next(s, input).sent == s.sent + loads
  {
    hide Turn;
    OneLoadPerTurn(s, input);
  }

  lemma CallCarries(load: seq<byte>)
    ensures CallFor(load).0[..CallFor(load).1] == load
  {}

  lemma AppLeaves(u: U.State, c: U.Choice)
    requires u.Valid() && c.Valid() && u.pc.App? && (c.call.Some? ==> U.IsHandshake(u.tx1.len))
    ensures
      U.Main(u, c, true) ==
      u.(pc := if c.call.Some? then U.SiTest(c.call.value.0, c.call.value.1) else U.Poll)
  {}

  // ------------------------------------------------------------------- the theorem

  /** Power-up, and `usbInit`. */
  function Start(eeprom: seq<byte>, usb: U.State): (j: Joint)
    requires |eeprom| == RAM_SIZE && U.Initial(usb)
    ensures j.Valid()
  {
    Joint(PowerUp(eeprom), usb, None, false, [], [], [], [])
  }

  lemma Started(eeprom: seq<byte>, usb: U.State)
    requires |eeprom| == RAM_SIZE && U.Initial(usb)
    ensures JointInv(PowerUp(eeprom), Start(eeprom, usb))
  {
    hide C.ControlInv, B.FreeInv, Inv, PowerUp;
    var sys := PowerUp(eeprom);
    PowerUpHolds(eeprom);
    PowerUpSilent(eeprom);
    UsbRuns.InitialHolds(usb);
    InvFacts(sys);
  }

  lemma NextKeeps(start: System, j: Joint, e: Event)
    requires JointInv(start, j) && e.Valid() && Obeys(j, e)
    ensures JointInv(start, Next(j, e))
  {
    hide JointInv, Next;
    match e
    case Bus(a) => BusKeeps(start, j, a);
    case Step(reply, reset, busOk) =>
      if PassDue(j) {
        PassKeeps(start, j, e);
      } else {
        DriverKeeps(start, j, reply, reset, busOk);
      }
  }

  lemma InvValid(start: System, j: Joint)
    requires JointInv(start, j)
    ensures j.Valid()
  {}

  lemma {:induction false} RunKeeps(start: System, j: Joint, es: seq<Event>)
    requires JointInv(start, j) && ValidEvents(es) && Obedient(j, es)
    ensures JointInv(start, Run(j, es))
    decreases |es|
  {
    hide JointInv, Next, Obeys, Joint.Valid;
    InvValid(start, j);
    if es != [] {
      var n := |es| - 1;
      RunKeeps(start, j, es[..n]);
      NextKeeps(start, Run(j, es[..n]), es[n]);
    }
  }

  /** Outs over a concatenation of at most one packet. */
  lemma OutsOf(ps: seq<U.Packet>, more: seq<U.Packet>)
    requires |more| <= 1
    ensures Outs(ps + more) == Outs(ps) + Outs(more)
  {
    if more == [] {
      assert ps + more == ps;
    } else {
      assert ps + more == ps + [more[0]] && Outs([]) == [];
      OutsAdd(ps, more[0]);
      OutsAdd([], more[0]);
      assert [] + [more[0]] == more;
    }
  }

  /** Let `cs` be the commands made of the OUT packets that the passes took. These packets
      are, in order, the OUT packets the device acknowledged, but for at most two that are
      still inside. The data the host received on endpoint 1 is the front of the answers to
      `cs`, each packet once and in order, and the disk holds what `cs` wrote. */
  ghost predicate Faithful(eeprom: seq<byte>, j: Joint) {
    && |eeprom| == RAM_SIZE && LegalRun(PowerUp(eeprom), j.inputs) && AllValid(j.inputs)
    && Taken(j.inputs) <= Outs(j.accepted) && |Outs(j.accepted)| <= |Taken(j.inputs)| + 2
    && var cs := Commands.Completed(PowerUp(eeprom), j.inputs);
       && Commands.AllValid(cs) && j.sys.host.image == Commands.Image(eeprom, cs)
       && var rs := Commands.Answers(eeprom, Zeros(DATA_LENGTH), cs);
          Commands.Tagged(rs) && j.heard <= Commands.Laid(rs)
  }

  lemma InvIsFaithful(eeprom: seq<byte>, j: Joint)
    requires |eeprom| == RAM_SIZE && JointInv(PowerUp(eeprom), j)
    ensures Faithful(eeprom, j)
  {
    hide PowerUp, Inv, C.ControlInv, B.FreeInv, B.TestFree, LegalRun, Runs.Run, LoadsMatch,
         Commands.Answers, Commands.Completed, Commands.Laid, Commands.Image, Taken, Outs, Logged;
    Commands.EveryCommandAnswered(eeprom, j.inputs);
    HeardIsSent(j);
    AckedSplit(j.usb);
    OutsOf(j.usb.log.processed, R.InFlight(j.usb));
    OutsShort(R.InFlight(j.usb));
  }

  /** End to end, over every interleaving from power-up on, with a host that obeys the
      transport as far as it can see. */
  lemma EndToEnd(eeprom: seq<byte>, usb: U.State, es: seq<Event>)
    requires |eeprom| == RAM_SIZE && U.Initial(usb) && ValidEvents(es) && Obedient(Start(eeprom, usb), es)
    ensures Faithful(eeprom, Run(Start(eeprom, usb), es))
  {
    hide JointInv, Faithful, Run, Obedient, Start, U.Initial, PowerUp;
    Started(eeprom, usb);
    RunKeeps(PowerUp(eeprom), Start(eeprom, usb), es);
    InvIsFaithful(eeprom, Run(Start(eeprom, usb), es));
  }

  lemma PowerUpSilent(eeprom: seq<byte>)
    requires |eeprom| == RAM_SIZE
    ensures PowerUp(eeprom).sent == []
  {}

  lemma AckedSplit(u: U.State)
    requires C.ControlInv(u)
    ensures u.Valid() && u.log.acked == u.log.processed + R.InFlight(u) && |R.InFlight(u)| <= 1
  {}

  lemma OutsShort(ps: seq<U.Packet>)
    requires |ps| <= 1
    ensures |Outs(ps)| <= 1
  {
    assert Outs([]) == [];
  }
}
