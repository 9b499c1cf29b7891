/** Whole runs: any number of main-loop turns, with the packets of an obedient host arriving
    at any of them, the IN buffer free or not, the EEPROM answering or not. */
module Runs {
  import opened Bytes
  import opened Bitmap
  import opened Transfer
  import opened Device
  import opened Disk
  import opened System
  import opened FlushSteps
  import opened PacketSteps

  /** What the host may do at this turn. */
  predicate Legal(s: System, input: Input) {
    s.host.Valid() && input.Valid() && (input.packet.Some? ==> MaySend(s.host, s.sent, input.packet.value))
  }

  /** One turn of the main loop, with the plain disk taking the same packet. */
  function Next(s: System, input: Input): (r: System)
    requires s.dev.Valid() && Legal(s, input)
    ensures r.dev.Valid() && r.host.Valid()
  {
    var host := if input.packet.Some? then Take(s.host, s.sent, input.packet.value) else s.host;
    var (dev, loads) := Turn(s.dev, input);
    System(dev, host, s.sent + loads, LostAfter(s.dev.store, s.lost, input.busOk))
  }

  /** After power-up: RAM loaded from the EEPROM, every global zero. */
  function PowerUp(eeprom: seq<byte>): (s: System)
    requires |eeprom| == RAM_SIZE
    ensures s.dev.Valid() && s.host.Valid()
  {
    var store := Store(eeprom, eeprom, Zeros(MAP_BYTES), -1, 0);
    var intake := Intake(false, false, Zeros(CBW_SIZE), 0);
    var out := Outgoing([], 0, Zeros(DATA_LENGTH), Zeros(CSW_LENGTH));
    System(Device(store, intake, Writing(false, false, 0, 0, 0, 0), Reading(false, 0, 0, 0, 0), out, Zeros(4), 0),
           Disk(eeprom, Command([]), Zeros(DATA_LENGTH), []), [], {})
  }

  predicate LegalRun(s: System, inputs: seq<Input>)
    requires s.dev.Valid()
    decreases |inputs|
  {
    inputs == [] || (Legal(s, inputs[0]) && LegalRun(Next(s, inputs[0]), inputs[1..]))
  }

  function Run(s: System, inputs: seq<Input>): (r: System)
    requires s.dev.Valid() && s.host.Valid() && LegalRun(s, inputs)
    ensures r.dev.Valid() && r.host.Valid()
    decreases |inputs|
  {
    if inputs == [] then s else Run(Next(s, inputs[0]), inputs[1..])
  }

  // ----------------------------------------------------------------- invariance

  /** A packet that completes a command leaves nothing to send in that turn before it. */
  lemma SilentSends(d: Device)
    requires d.Valid() && Silent(d)
    ensures SendTurn(d) == (d, [])
  {
    assert Loaded(None) + Loaded(None) == [];
    assert d.(out := d.out) == d;
  }

  /** Every turn keeps the device in step with the plain disk. */
  lemma TurnKeeps(s: System, input: Input)
    requires Inv(s) && Legal(s, input)
    ensures Inv(Next(s, input))
  {
    hide SendTurn, CommandTurn, WriteOut, Take, Flush, LostAfter, Inv;
    InvFacts(s);
    var d := Poll(s.dev, input.packet);
    var host := if input.packet.Some? then Take(s.host, s.sent, input.packet.value) else s.host;
    if input.packet.Some? {
      PacketKeeps(s, input.packet.value);
    }
    assert s.sent + [] == s.sent;
    if d.intake.finished {
      SilentSends(d);
      var s1 := s.(dev := CommandTurn(d), host := host);
      FlushKeeps(s1, input.busOk);
      SameLost(s1.dev.store, s.dev.store, s.lost, input.busOk);
    } else {
      var s1 := s.(dev := d, host := host);
      var (d2, loads) := if input.ready then SendTurn(d) else (d, []);
      if input.ready {
        SendKeeps(s1);
      }
      var s2 := s1.(dev := d2, sent := s.sent + loads);
      NoCommand(d2);
      FlushKeeps(s2, input.busOk);
      SameLost(d2.store, s.dev.store, s.lost, input.busOk);
    }
  }

  lemma InvFacts(s: System)
    requires Inv(s)
    ensures s.dev.Valid() && s.host.Valid() && !s.dev.intake.finished
  {}

  lemma NoCommand(d: Device)
    requires d.Valid() && !d.intake.finished
    ensures CommandTurn(d) == d
  {}

  lemma SameLost(a: Store, b: Store, lost: set<int>, busOk: bool)
    requires a.writeBlock == b.writeBlock && a.page == b.page
    ensures LostAfter(a, lost, busOk) == LostAfter(b, lost, busOk)
  {}

  lemma {:induction false} RunKeeps(s: System, inputs: seq<Input>)
    requires Inv(s) && LegalRun(s, inputs)
    ensures Inv(Run(s, inputs))
    decreases |inputs|
  {
    hide Inv, Legal, Next;
    InvFacts(s);
    if inputs != [] {
      TurnKeeps(s, inputs[0]);
      RunKeeps(Next(s, inputs[0]), inputs[1..]);
    }
  }

  lemma PowerUpHolds(eeprom: seq<byte>)
    requires |eeprom| == RAM_SIZE
    ensures Inv(PowerUp(eeprom))
  {}

  // ------------------------------------------------------------- the main results

  /** From power-up on, whatever the host, the bus and the timing do within the rules: every
      byte of RAM is in the EEPROM unless one of the four excuses holds; and the packets sent
      are, in order, the plain disk's answers, up to those still pending. */
  lemma EveryRun(eeprom: seq<byte>, inputs: seq<Input>)
    requires |eeprom| == RAM_SIZE && LegalRun(PowerUp(eeprom), inputs)
    ensures
      var s := Run(PowerUp(eeprom), inputs);
      && Inv(s)
      && s.sent == s.host.answers[..|s.sent|]
      && (forall a: nat :: a < RAM_SIZE ==>
            s.dev.store.ram[a] == s.dev.store.eeprom[a] || Excused(s.dev, s.lost, a))
  {
    PowerUpHolds(eeprom);
    RunKeeps(PowerUp(eeprom), inputs);
  }

  /** A turn with a free IN buffer loads exactly the next packet owed, if any, and a turn
      without loads nothing. */
  lemma OneLoadPerTurn(s: System, input: Input)
    requires Inv(s) && Legal(s, input)
    ensures
      var d := Poll(s.dev, input.packet);
      && Reads(d)
      && Turn(s.dev, input).1 == if input.ready && Pending(d) != [] then [Pending(d)[0]] else []
  {
    hide SendTurn, CommandTurn, WriteOut, Take, Flush, Inv;
    InvFacts(s);
    var d := Poll(s.dev, input.packet);
    var host := if input.packet.Some? then Take(s.host, s.sent, input.packet.value) else s.host;
    if input.packet.Some? {
      PacketKeeps(s, input.packet.value);
    }
    if d.intake.finished {
      SilentSends(d);
      PendingNone(d);
    } else {
      ReadsFromInv(s.(dev := d, host := host));
      SendKeeps(s.(dev := d, host := host));
    }
  }

  lemma ReadsFromInv(s: System)
    requires Inv(s)
    ensures Reads(s.dev)
  {}

  // -------------------------------------------------- turns without new host writes

  /** Turns in which the host sends nothing. */
  predicate NoPackets(inputs: seq<Input>) {
    forall i :: 0 <= i < |inputs| ==> inputs[i].packet == None
  }

  /** How often the IN buffer is free. */
  function ReadyTurns(inputs: seq<Input>): nat {
    if inputs == [] then 0 else (if inputs[0].ready then 1 else 0) + ReadyTurns(inputs[1..])
  }

  predicate BusWorks(inputs: seq<Input>) {
    forall i :: 0 <= i < |inputs| ==> inputs[i].busOk
  }

  /** The host may send commands, but no data packet of a WRITE. */
  predicate WritesNothing(s: System, inputs: seq<Input>)
    requires s.dev.Valid()
    decreases |inputs|
  {
    inputs == []
    || (Legal(s, inputs[0]) && (s.host.phase.Command? || inputs[0].packet == None)
        && WritesNothing(Next(s, inputs[0]), inputs[1..]))
  }

  /** Turns the flush still needs: five per dirty block, and the pages left of the block
      being copied. */
  ghost function Work(s: Store): nat
    requires s.Valid()
  {
    5 * |DirtySet(s.dirty)| + if s.writeBlock >= 0 then 4 - s.page else 0
  }

  /** Every flush step does one unit of that work; the flush rests exactly when no block is
      dirty and none is being copied. */
  lemma FlushWorks(s: Store, busOk: bool)
    requires s.Valid() && (s.writeBlock < 0 ==> s.page == 0)
    ensures Work(s) > 0 ==> Work(Flush(s, busOk)) == Work(s) - 1
    ensures Work(s) == 0 ==> Flush(s, busOk) == s
    ensures Work(s) == 0 <==> DirtySet(s.dirty) == {} && s.writeBlock < 0
  {
    ClearFirst(s.dirty);
    if s.writeBlock < 0 && FirstDirty(s.dirty, 0) >= 0 {
      var b := FirstDirty(s.dirty, 0);
      assert |DirtySet(s.dirty) - {b}| == |DirtySet(s.dirty)| - 1;
    }
  }

  lemma AnswersSplit(s: System)
    requires Inv(s)
    ensures Reads(s.dev) && s.host.answers == s.sent + Pending(s.dev)
    ensures s.dev.store.writeBlock < 0 ==> s.dev.store.page == 0
  {}

  /** What the host has still to receive. */
  function Owed(s: System): int {
    |s.host.answers| - |s.sent|
  }

  /** A turn that takes no data packet does one flush step to the same RAM, whatever command
      packet arrives and whether or not the IN buffer is free; the disk stays as it is. */
  lemma IdleTurn(s: System, input: Input)
    requires Inv(s) && Legal(s, input) && (s.host.phase.Command? || input.packet == None)
    ensures
      var t := Next(s, input);
      && Inv(t) && t.dev.store == Flush(s.dev.store, input.busOk)
      && Work(t.dev.store) == (if Work(s.dev.store) == 0 then 0 else Work(s.dev.store) - 1)
      && t.host.image == s.host.image && Arrived(t.host) == Arrived(s.host)
      && (input.busOk ==> t.lost <= s.lost)
  {
    hide SendTurn, CommandTurn, TakeCommand, Flush, Inv, Work;
    InvFacts(s);
    TurnKeeps(s, input);
    AnswersSplit(s);
    FlushWorks(s.dev.store, input.busOk);
    PhaseFits(s);
  }

  /** The bytes of a WRITE in progress that have come already, and where they belong. */
  function Arrived(h: Disk): (nat, seq<byte>) {
    match h.phase
    case Command(_) => (0, [])
    case DataOut(lba, _, payload, _) => if payload == [] then (0, []) else (lba, payload)
  }

  lemma PhaseFits(s: System)
    requires Inv(s)
    ensures s.dev.wr.active == s.host.phase.DataOut?
  {}

  lemma {:induction false} IdleRun(s: System, inputs: seq<Input>)
    requires Inv(s) && WritesNothing(s, inputs)
    ensures LegalRun(s, inputs)
    ensures
      var t := Run(s, inputs);
      && Inv(t) && t.host.image == s.host.image && Arrived(t.host) == Arrived(s.host)
      && Work(t.dev.store) == (if |inputs| >= Work(s.dev.store) then 0 else Work(s.dev.store) - |inputs|)
      && (BusWorks(inputs) ==> t.lost <= s.lost)
    decreases |inputs|
  {
    hide Inv, Legal, Next, Work, Arrived;
    InvFacts(s);
    if inputs != [] {
      IdleTurn(s, inputs[0]);
      IdleRun(Next(s, inputs[0]), inputs[1..]);
    }
  }

  /** A turn without a packet takes one off what is owed, if the IN buffer is free. */
  lemma QuietTurn(s: System, input: Input)
    requires Inv(s) && input.packet == None
    ensures Legal(s, input)
    ensures
      var t := Next(s, input);
      && Inv(t) && t.host == s.host
      && Owed(t) == (if input.ready && Owed(s) > 0 then Owed(s) - 1 else Owed(s))
  {
    hide SendTurn, Flush, Inv, CommandTurn;
    InvFacts(s);
    TurnKeeps(s, input);
    OneLoadPerTurn(s, input);
    AnswersSplit(s);
  }

  /** While the host only listens, the device sends one packet per free IN buffer until it
      owes nothing, however many turns come between. */
  lemma {:induction false} QuietRun(s: System, inputs: seq<Input>)
    requires Inv(s) && NoPackets(inputs)
    ensures LegalRun(s, inputs)
    ensures
      var t := Run(s, inputs);
      && Inv(t) && t.host == s.host
      && Owed(t) == (if ReadyTurns(inputs) >= Owed(s) then 0 else Owed(s) - ReadyTurns(inputs))
      && (ReadyTurns(inputs) >= Owed(s) ==> t.sent == s.host.answers)
    decreases |inputs|
  {
    hide Inv, Legal, Next;
    InvFacts(s);
    AnswersSplit(s);
    if inputs != [] {
      QuietTurn(s, inputs[0]);
      QuietRun(Next(s, inputs[0]), inputs[1..]);
    }
  }

  // ------------------------------------------------- service, and power-off safety

  /** `p` completes the command block `cbw`. */
  predicate Completes(h: Disk, p: Received, cbw: seq<byte>) {
    && h.Valid() && p.Valid() && |cbw| == CBW_SIZE
    && h.phase.Command? && h.phase.cbw != [] && |h.phase.cbw| + p.len >= CBW_SIZE
    && cbw == (h.phase.cbw + p.Bytes())[..CBW_SIZE]
  }

  /** However the flush is going, a complete command is answered with exactly the plain
      disk's answer, in as many free IN buffers as it has packets. */
  lemma CommandAnswered(s: System, p: Received, cbw: seq<byte>, first: Input, quiet: seq<Input>)
    requires Inv(s) && Completes(s.host, p, cbw)
    requires first.packet == Some(p) && Legal(s, first) && NoPackets(quiet)
    requires ReadyTurns(quiet) >= |Answer(s.host, cbw)|
    ensures LegalRun(s, [first] + quiet)
    ensures
      var t := Run(s, [first] + quiet);
      Inv(t) && t.sent == s.sent + Answer(s.host, cbw) && t.host == Execute(s.host, cbw)
  {
    hide Inv, Answer, Turn;
    InvFacts(s);
    TurnKeeps(s, first);
    OwesNothing(s);
    var t := Next(s, first);
    InvFacts(t);
    AnswersSplit(t);
    QuietRun(t, quiet);
    assert ([first] + quiet)[1..] == quiet;
  }

  lemma OwesNothing(s: System)
    requires Inv(s) && s.host.phase.Command? && s.host.phase.cbw != []
    ensures s.sent == s.host.answers
  {
    PendingNone(s.dev);
  }

  /** The last data packet of a WRITE is answered with its status, in two free IN buffers. */
  lemma WriteAnswered(s: System, p: Received, first: Input, quiet: seq<Input>)
    requires Inv(s) && s.host.phase.DataOut?
    requires |s.host.phase.payload| + 8 == s.host.phase.blocks * BLOCK_SIZE
    requires first.packet == Some(p) && Legal(s, first) && NoPackets(quiet) && ReadyTurns(quiet) >= 2
    ensures LegalRun(s, [first] + quiet)
    ensures
      var t, h := Run(s, [first] + quiet), s.host;
      && Inv(t) && t.sent == s.sent + Chunks(Csw(h.phase.tag)) && t.host.phase == Command([])
      && t.host.image == Splice(h.image, h.phase.lba * BLOCK_SIZE, h.phase.payload + p.Bytes())
  {
    hide Inv, Turn, Splice, Csw;
    InvFacts(s);
    TurnKeeps(s, first);
    SilentInData(s);
    var t := Next(s, first);
    InvFacts(t);
    AnswersSplit(t);
    ChunksOfMessage(Csw(s.host.phase.tag));
    QuietRun(t, quiet);
    assert ([first] + quiet)[1..] == quiet;
  }

  lemma SilentInData(s: System)
    requires Inv(s) && s.host.phase.DataOut?
    ensures s.sent == s.host.answers
  {
    PendingNone(s.dev);
  }

  /** A byte of a WRITE in progress that has come already. */
  predicate Arriving(h: Disk, a: nat) {
    var (lba, payload) := Arrived(h);
    lba * BLOCK_SIZE <= a < lba * BLOCK_SIZE + |payload|
  }

  /** Once the flush rests, EEPROM and disk differ at most in refused pages and in what has
      come of a WRITE that is not finished. */
  lemma RestIsClean(s: System)
    requires Inv(s) && Work(s.dev.store) == 0
    ensures forall a: nat :: a < RAM_SIZE ==>
              s.dev.store.eeprom[a] == s.host.image[a] || a / PAGE_SIZE in s.lost || Arriving(s.host, a)
  {
    FlushWorks(s.dev.store, true);
    forall a: nat | a < RAM_SIZE
      ensures s.dev.store.eeprom[a] == s.host.image[a] || a / PAGE_SIZE in s.lost || Arriving(s.host, a)
    {
      assert !IsDirty(s.dev.store.dirty, a / BLOCK_SIZE) by {
        assert a / BLOCK_SIZE !in DirtySet(s.dev.store.dirty);
      }
    }
  }

  lemma PowerUpImage(eeprom: seq<byte>)
    requires |eeprom| == RAM_SIZE
    ensures PowerUp(eeprom).host.image == eeprom
  {}
}
