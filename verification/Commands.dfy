/** A run seen as the host means it: a list of whole commands, each one taking effect on the
    disk and each one answered once. */
module Commands {
  import opened Bytes
  import opened Transfer
  import opened Device
  import opened Disk
  import opened System
  import opened Runs

  /** A WRITE with its payload, or any other complete command block. */
  datatype Command = Write(lba: nat, payload: seq<byte>, tag: seq<byte>) | Other(cbw: seq<byte>) {
    predicate Valid() {
      match this
      case Write(lba, payload, tag) => lba * BLOCK_SIZE + |payload| <= RAM_SIZE && |tag| == 4
      case Other(cbw) => |cbw| == CBW_SIZE && InRange(cbw)
    }
  }

  // ------------------------------------------------------ what the commands mean

  /** The disk after the first commands. */
  function Image(image: seq<byte>, cs: seq<Command>): (r: seq<byte>)
    requires |image| == RAM_SIZE && AllValid(cs)
    ensures |r| == RAM_SIZE
    decreases |cs|
  {
    if cs == [] then image
    else
      var before, c := Image(image, cs[..|cs| - 1]), cs[|cs| - 1];
      if c.Write? then Splice(before, c.lba * BLOCK_SIZE, c.payload) else before
  }

  predicate AllValid(cs: seq<Command>) {
    forall i :: 0 <= i < |cs| ==> cs[i].Valid()
  }

  /** What a command is answered with: its data, then one status with its tag. A command that
      is not recognised is not answered. */
  datatype Answered = Answered(data: seq<byte>, tag: seq<byte>)

  /** The answer to a command on a disk with this image; `scratch` is what the reply buffer
      held before. */
  function AnswerTo(image: seq<byte>, scratch: seq<byte>, c: Command): (r: seq<Answered>)
    requires |image| == RAM_SIZE && |scratch| == DATA_LENGTH && c.Valid()
  {
    match c
    case Write(_, _, tag) => [Answered([], tag)]
    case Other(cbw) =>
      if !Recognised(Opcode(cbw)) || Opcode(cbw) == WRITE then []
      else if Opcode(cbw) == READ then [Answered(Blocks(image, Lba(cbw), Length(cbw)), Tag(cbw))]
      else
        match ReplyData(Opcode(cbw), scratch)
        case Some(data) => [Answered(data, Tag(cbw))]
        case None => []
  }

  /** The reply buffer after the first commands. */
  function Scratch(scratch: seq<byte>, cs: seq<Command>): (r: seq<byte>)
    requires |scratch| == DATA_LENGTH
    ensures |r| == DATA_LENGTH
    decreases |cs|
  {
    if cs == [] then scratch
    else
      var before, c := Scratch(scratch, cs[..|cs| - 1]), cs[|cs| - 1];
      if c.Write? || |c.cbw| != CBW_SIZE then before else ScratchAfter(Opcode(c.cbw), before)
  }

  /** All answers, in the order of the commands: each sees the disk as the commands before it
      left it. */
  function Answers(image: seq<byte>, scratch: seq<byte>, cs: seq<Command>): (r: seq<Answered>)
    requires |image| == RAM_SIZE && |scratch| == DATA_LENGTH && AllValid(cs)
    decreases |cs|
  {
    if cs == [] then []
    else
      var before := cs[..|cs| - 1];
      Answers(image, scratch, before)
      + AnswerTo(Image(image, before), Scratch(scratch, before), cs[|cs| - 1])
  }

  /** The packets of an answer: no data is no packet, a status is two. */
  function Packets(r: Answered): seq<seq<byte>>
    requires |r.tag| == 4
  {
    (if r.data == [] then [] else Chunks(r.data)) + Chunks(Csw(r.tag))
  }

  predicate Tagged(rs: seq<Answered>) {
    forall i :: 0 <= i < |rs| ==> |rs[i].tag| == 4
  }

  function Laid(rs: seq<Answered>): seq<seq<byte>>
    requires Tagged(rs)
    decreases |rs|
  {
    if rs == [] then [] else Laid(rs[..|rs| - 1]) + Packets(rs[|rs| - 1])
  }

  predicate Covers(c: Command, a: nat) {
    c.Write? && c.lba * BLOCK_SIZE <= a < c.lba * BLOCK_SIZE + |c.payload|
  }

  /** The last WRITE that covers byte `a`, or -1. */
  function LastWrite(cs: seq<Command>, a: nat): (i: int)
    ensures i == -1 || (0 <= i < |cs| && Covers(cs[i], a) && forall j :: i < j < |cs| ==> !Covers(cs[j], a))
    ensures i == -1 ==> forall j :: 0 <= j < |cs| ==> !Covers(cs[j], a)
    decreases |cs|
  {
    var n := |cs| - 1;
    if n < 0 then -1 else if Covers(cs[n], a) then n else LastWrite(cs[..n], a)
  }

  /** Every byte is that of the last WRITE to it. */
  lemma {:induction false} LastWriteWins(image: seq<byte>, cs: seq<Command>, a: nat)
    requires |image| == RAM_SIZE && AllValid(cs) && a < RAM_SIZE
    ensures
      var i := LastWrite(cs, a);
      Image(image, cs)[a] == if i < 0 then image[a] else cs[i].payload[a - cs[i].lba * BLOCK_SIZE]
    decreases |cs|
  {
    if cs != [] {
      LastWriteWins(image, cs[..|cs| - 1], a);
    }
  }

  /** `c` writes nothing to the bytes of `w`. */
  predicate Apart(w: Command, c: Command)
    requires w.Write?
  {
    c.Write? ==>
      c.lba * BLOCK_SIZE + |c.payload| <= w.lba * BLOCK_SIZE || w.lba * BLOCK_SIZE + |w.payload| <= c.lba * BLOCK_SIZE
  }

  /** No command behind the WRITE at `i` writes to its bytes. */
  predicate LastThere(cs: seq<Command>, i: nat) {
    i < |cs| && cs[i].Write? && forall j :: i < j < |cs| ==> Apart(cs[i], cs[j])
  }

  lemma {:induction false} StillThere(image: seq<byte>, cs: seq<Command>, i: nat)
    requires |image| == RAM_SIZE && AllValid(cs) && LastThere(cs, i)
    ensures
      var at := cs[i].lba * BLOCK_SIZE;
      at + |cs[i].payload| <= RAM_SIZE && Image(image, cs)[at..at + |cs[i].payload|] == cs[i].payload
    decreases |cs|
  {
    assert cs[i].Valid();
    var n, at, to := |cs| - 1, cs[i].lba * BLOCK_SIZE, cs[i].lba * BLOCK_SIZE + |cs[i].payload|;
    if i < n {
      StillThere(image, cs[..n], i);
      var m := Image(image, cs[..n]);
      assert cs[n].Valid() && Apart(cs[i], cs[n]);
      assert forall k :: at <= k < to ==> Image(image, cs)[k] == m[k];
      assert Image(image, cs)[at..to] == m[at..to];
    }
  }

  /** A READ of the blocks of a WRITE is answered with its payload, whatever commands came
      before it, and whatever came since without writing there. */
  lemma ReadBack(image: seq<byte>, scratch: seq<byte>, cs: seq<Command>, i: nat, cbw: seq<byte>)
    requires |image| == RAM_SIZE && |scratch| == DATA_LENGTH && AllValid(cs) && LastThere(cs, i)
    requires |cbw| == CBW_SIZE && InRange(cbw) && Opcode(cbw) == READ
    requires Lba(cbw) == cs[i].lba && Length(cbw) * BLOCK_SIZE == |cs[i].payload|
    ensures AnswerTo(Image(image, cs), scratch, Other(cbw)) == [Answered(cs[i].payload, Tag(cbw))]
  {
    hide Image, AnswerTo, Lba, Length, Opcode, InRange, Tag;
    StillThere(image, cs, i);
    ReadAnswer(Image(image, cs), scratch, cbw);
  }

  lemma ReadAnswer(image: seq<byte>, scratch: seq<byte>, cbw: seq<byte>)
    requires |image| == RAM_SIZE && |scratch| == DATA_LENGTH
    requires |cbw| == CBW_SIZE && InRange(cbw) && Opcode(cbw) == READ
    ensures
      var at, to := Lba(cbw) * BLOCK_SIZE, (Lba(cbw) + Length(cbw)) * BLOCK_SIZE;
      to <= RAM_SIZE && AnswerTo(image, scratch, Other(cbw)) == [Answered(image[at..to], Tag(cbw))]
  {
    hide ReplyData;
  }

  // ------------------------------------------------------------ the commands of a run

  /** The command that `p` completes, judged by the packets the host sent. */
  function Finished(h: Disk, p: Received): (c: seq<Command>)
    requires h.Valid() && p.Valid()
  {
    match h.phase
    case DataOut(lba, blocks, payload, tag) =>
      if |payload| + p.len == blocks * BLOCK_SIZE then [Write(lba, payload + p.Bytes(), tag)] else []
    case Command(cbw) =>
      if cbw == [] || |cbw| + p.len < CBW_SIZE then []
      else
        var cbw := (cbw + p.Bytes())[..CBW_SIZE];
        if Opcode(cbw) == WRITE then [] else [Other(cbw)]
  }

  function Completed(s: System, inputs: seq<Input>): (cs: seq<Command>)
    requires s.dev.Valid() && LegalRun(s, inputs)
    decreases |inputs|
  {
    if inputs == [] then []
    else
      (if inputs[0].packet.Some? then Finished(s.host, inputs[0].packet.value) else [])
      + Completed(Next(s, inputs[0]), inputs[1..])
  }

  /** The tags of the recognised commands, in order. */
  function Tags(cs: seq<Command>): seq<seq<byte>>
    requires AllValid(cs)
    decreases |cs|
  {
    if cs == [] then []
    else
      Tags(cs[..|cs| - 1])
      + match cs[|cs| - 1]
        case Write(_, _, tag) => [tag]
        case Other(cbw) => if Recognised(Opcode(cbw)) && Opcode(cbw) != WRITE then [Tag(cbw)] else []
  }

  lemma {:induction false} OneAnswerEach(image: seq<byte>, scratch: seq<byte>, cs: seq<Command>)
    requires |image| == RAM_SIZE && |scratch| == DATA_LENGTH && AllValid(cs)
    ensures
      var rs := Answers(image, scratch, cs);
      |rs| == |Tags(cs)| && forall i :: 0 <= i < |rs| ==> rs[i].tag == Tags(cs)[i] && |rs[i].tag| == 4
    decreases |cs|
  {
    hide ReplyData, Blocks;
    if cs != [] {
      OneAnswerEach(image, scratch, cs[..|cs| - 1]);
      var c := cs[|cs| - 1];
      if c.Other? && Opcode(c.cbw) != READ && Opcode(c.cbw) != WRITE {
        KnownAnyway(Opcode(c.cbw), Scratch(scratch, cs[..|cs| - 1]));
      }
    }
  }

  // ----------------------------------------------------------------- the theorem

  /** The disk `h` is what the commands `cs` make of a disk with `image` and `scratch`, and
      owes their answers after `before`. */
  predicate Explains(image: seq<byte>, scratch: seq<byte>, before: seq<seq<byte>>, cs: seq<Command>, h: Disk) {
    && |image| == RAM_SIZE && |scratch| == DATA_LENGTH && AllValid(cs) && h.Valid()
    && h.image == Image(image, cs) && h.scratch == Scratch(scratch, cs)
    && Tagged(Answers(image, scratch, cs)) && h.answers == before + Laid(Answers(image, scratch, cs))
  }

  /** What one command adds to the disk's answers. */
  lemma AnswerAgrees(h: Disk, cbw: seq<byte>)
    requires h.Valid() && |cbw| == CBW_SIZE && InRange(cbw) && Opcode(cbw) != WRITE
    ensures
      var more := AnswerTo(h.image, h.scratch, Other(cbw));
      Tagged(more) && |more| <= 1 && Answer(h, cbw) == if more == [] then [] else Packets(more[0])
  {
    hide Csw, Chunks, Blocks, ReplyData;
    if Opcode(cbw) != READ {
      KnownAnyway(Opcode(cbw), h.scratch);
    }
    assert [] + Chunks(Csw(Tag(cbw))) == Chunks(Csw(Tag(cbw)));
  }

  lemma OneMore(image: seq<byte>, scratch: seq<byte>, cs: seq<Command>, c: Command)
    requires |image| == RAM_SIZE && |scratch| == DATA_LENGTH && AllValid(cs) && c.Valid()
    ensures (cs + [c])[..|cs|] == cs && AllValid(cs + [c])
    ensures Answers(image, scratch, cs + [c]) ==
            Answers(image, scratch, cs) + AnswerTo(Image(image, cs), Scratch(scratch, cs), c)
  {
    hide AnswerTo;
    assert (cs + [c])[..|cs|] == cs;
  }

  lemma LaidMore(rs: seq<Answered>, more: seq<Answered>)
    requires Tagged(rs) && Tagged(more) && |more| <= 1
    ensures Tagged(rs + more) && Laid(rs + more) == Laid(rs) + if more == [] then [] else Packets(more[0])
  {
    hide Packets;
    if more == [] {
      assert rs + more == rs;
    } else {
      assert rs + more == rs + [more[0]] && (rs + more)[..|rs|] == rs;
    }
  }

  lemma WriteExplained(image: seq<byte>, scratch: seq<byte>, before: seq<seq<byte>>, cs: seq<Command>,
                       h: Disk, c: Command)
    requires Explains(image, scratch, before, cs, h) && c.Valid() && c.Write?
    ensures Explains(image, scratch, before, cs + [c],
                     Disk(Splice(h.image, c.lba * BLOCK_SIZE, c.payload), Phase.Command([]), h.scratch,
                          h.answers + Chunks(Csw(c.tag))))
  {
    hide Csw, Chunks, Splice, Answers, Image, Scratch, AnswerTo, Laid, Packets;
    OneMore(image, scratch, cs, c);
    WriteEffect(image, scratch, cs, c);
    LaidMore(Answers(image, scratch, cs), [Answered([], c.tag)]);
  }

  lemma WriteEffect(image: seq<byte>, scratch: seq<byte>, cs: seq<Command>, c: Command)
    requires |image| == RAM_SIZE && |scratch| == DATA_LENGTH && AllValid(cs) && c.Valid() && c.Write?
    ensures AllValid(cs + [c]) && Image(image, cs + [c]) == Splice(Image(image, cs), c.lba * BLOCK_SIZE, c.payload)
    ensures Scratch(scratch, cs + [c]) == Scratch(scratch, cs)
    ensures AnswerTo(Image(image, cs), Scratch(scratch, cs), c) == [Answered([], c.tag)]
    ensures Packets(Answered([], c.tag)) == Chunks(Csw(c.tag))
  {
    hide Splice, Chunks, Csw;
    OneMore(image, scratch, cs, c);
    assert [] + Chunks(Csw(c.tag)) == Chunks(Csw(c.tag));
  }

  lemma OtherExplained(image: seq<byte>, scratch: seq<byte>, before: seq<seq<byte>>, cs: seq<Command>,
                       h: Disk, cbw: seq<byte>)
    requires Explains(image, scratch, before, cs, h)
    requires |cbw| == CBW_SIZE && InRange(cbw) && Opcode(cbw) != WRITE
    ensures Explains(image, scratch, before, cs + [Other(cbw)], Execute(h, cbw))
  {
    hide Csw, Chunks, Answers, Answer, AnswerTo, Packets, Execute, Image, Scratch, Laid;
    var c := Other(cbw);
    OneMore(image, scratch, cs, c);
    AnswerAgrees(h, cbw);
    LaidMore(Answers(image, scratch, cs), AnswerTo(h.image, h.scratch, c));
    OtherEffect(image, scratch, cs, h, cbw);
    assert h.answers + [] == h.answers;
  }

  lemma OtherEffect(image: seq<byte>, scratch: seq<byte>, cs: seq<Command>, h: Disk, cbw: seq<byte>)
    requires |image| == RAM_SIZE && |scratch| == DATA_LENGTH && AllValid(cs) && h.Valid()
    requires h.image == Image(image, cs) && h.scratch == Scratch(scratch, cs)
    requires |cbw| == CBW_SIZE && InRange(cbw) && Opcode(cbw) != WRITE
    ensures AllValid(cs + [Other(cbw)])
    ensures
      var r := Execute(h, cbw);
      && r.image == Image(image, cs + [Other(cbw)]) && r.scratch == Scratch(scratch, cs + [Other(cbw)])
      && r.answers == h.answers + Answer(h, cbw)
  {
    hide ScratchAfter, Answer, Blocks;
    OneMore(image, scratch, cs, Other(cbw));
  }

  /** One packet. */
  lemma TakeExplained(image: seq<byte>, scratch: seq<byte>, before: seq<seq<byte>>, cs: seq<Command>,
                      h: Disk, received: seq<seq<byte>>, p: Received)
    requires Explains(image, scratch, before, cs, h) && MaySend(h, received, p)
    ensures Explains(image, scratch, before, cs + Finished(h, p), Take(h, received, p))
  {
    hide Csw, Chunks, Splice, Answers, Answer, Image, Scratch, Laid, ScratchAfter;
    match h.phase
    case DataOut(lba, blocks, payload, tag) =>
      if |payload| + 8 == blocks * BLOCK_SIZE {
        WriteExplained(image, scratch, before, cs, h, Write(lba, payload + p.Bytes(), tag));
      } else {
        assert cs + [] == cs;
      }
    case Command(cbw) =>
      assert cs + [] == cs;
      if cbw != [] && |cbw| + p.len >= CBW_SIZE {
        var cbw := (cbw + p.Bytes())[..CBW_SIZE];
        if Opcode(cbw) == WRITE {
          NoAnswerYet(h, cbw);
        } else {
          OtherExplained(image, scratch, before, cs, h, cbw);
        }
      }
  }

  lemma NoAnswerYet(h: Disk, cbw: seq<byte>)
    requires h.Valid() && |cbw| == CBW_SIZE && InRange(cbw) && Opcode(cbw) == WRITE
    ensures
      var r := Execute(h, cbw);
      r.image == h.image && r.scratch == h.scratch && r.answers == h.answers
  {}

  lemma {:induction false} RunExplained(image: seq<byte>, scratch: seq<byte>, before: seq<seq<byte>>, cs: seq<Command>,
                                        s: System, inputs: seq<Input>)
    requires Inv(s) && LegalRun(s, inputs) && Explains(image, scratch, before, cs, s.host)
    ensures Explains(image, scratch, before, cs + Completed(s, inputs), Run(s, inputs).host)
    decreases |inputs|
  {
    hide Inv, Explains, Turn, Take, Finished, MaySend;
    InvFacts(s);
    if inputs == [] {
      assert cs + [] == cs;
    } else {
      TurnKeeps(s, inputs[0]);
      var done := if inputs[0].packet.Some? then Finished(s.host, inputs[0].packet.value) else [];
      if inputs[0].packet.Some? {
        TakeExplained(image, scratch, before, cs, s.host, s.sent, inputs[0].packet.value);
      } else {
        assert cs + [] == cs;
      }
      RunExplained(image, scratch, before, cs + done, Next(s, inputs[0]), inputs[1..]);
      assert cs + done + Completed(Next(s, inputs[0]), inputs[1..]) == cs + Completed(s, inputs);
    }
  }

  /** Every run from power-up, however the flush and the bus behave: take the commands the
      host completed. The disk is what their WRITEs, one after the other, make of the EEPROM.
      Each recognised command has exactly one answer, in order: its data as the commands
      before it left the disk, then one status with its own tag. What was sent is the front
      of these answers. */
  lemma EveryCommandAnswered(eeprom: seq<byte>, inputs: seq<Input>)
    requires |eeprom| == RAM_SIZE && LegalRun(PowerUp(eeprom), inputs)
    ensures
      var s, cs := Run(PowerUp(eeprom), inputs), Completed(PowerUp(eeprom), inputs);
      && AllValid(cs) && s.host.image == Image(eeprom, cs)
      && var rs := Answers(eeprom, Zeros(DATA_LENGTH), cs);
         && |rs| == |Tags(cs)| && (forall i :: 0 <= i < |rs| ==> rs[i].tag == Tags(cs)[i])
         && Tagged(rs) && s.sent <= Laid(rs)
         && (s.host.answers == Laid(rs))
  {
    hide Inv, Answers, Completed, Laid, Run, LegalRun;
    PowerUpHolds(eeprom);
    StartsExplained(eeprom);
    var cs := Completed(PowerUp(eeprom), inputs);
    RunExplained(eeprom, Zeros(DATA_LENGTH), [], [], PowerUp(eeprom), inputs);
    assert [] + cs == cs;
    RunKeeps(PowerUp(eeprom), inputs);
    AnswersSplit(Run(PowerUp(eeprom), inputs));
    OneAnswerEach(eeprom, Zeros(DATA_LENGTH), cs);
    var rs := Answers(eeprom, Zeros(DATA_LENGTH), cs);
    assert [] + Laid(rs) == Laid(rs);
  }

  lemma StartsExplained(eeprom: seq<byte>)
    requires |eeprom| == RAM_SIZE
    ensures Explains(eeprom, Zeros(DATA_LENGTH), [], [], PowerUp(eeprom).host)
  {}
}
