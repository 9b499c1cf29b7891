/** The flush does not look at what the EEPROM says. What becomes of a block, exactly, when
    some of its pages are refused. */
module Refused {
  import opened Bytes
  import opened Bitmap
  import opened Device
  import opened Disk
  import opened System
  import opened FlushSteps
  import opened PacketSteps
  import opened Runs

  predicate InBlock(b: nat, a: nat) {
    a / BLOCK_SIZE == b
  }

  /** The page of its block that byte `a` lies in. */
  function PageIn(a: nat): (p: nat)
    ensures p < 4
  {
    a % BLOCK_SIZE / PAGE_SIZE
  }

  /** The EEPROM has page `p` of block `b` as the RAM has it. */
  predicate PageSaved(s: Store, b: nat, p: nat)
    requires s.Valid()
  {
    forall a: nat :: a < RAM_SIZE && InBlock(b, a) && PageIn(a) == p ==> s.eeprom[a] == s.ram[a]
  }

  predicate BlockSaved(s: Store, b: nat)
    requires s.Valid()
  {
    forall p :: 0 <= p < 4 ==> PageSaved(s, b, p)
  }

  // ---------------------------------------------------------- the flush on its own

  /** Flush steps with the given answers of the EEPROM. */
  function Passes(s: Store, rs: seq<bool>): (r: Store)
    requires s.Valid()
    ensures r.Valid()
    decreases |rs|
  {
    if rs == [] then s else Passes(Flush(s, rs[0]), rs[1..])
  }

  /** One copying step, byte by byte. */
  lemma OnePass(s: Store, ok: bool)
    requires s.Valid() && s.writeBlock >= 0
    ensures
      var r := Flush(s, ok);
      && r.ram == s.ram && r.dirty == s.dirty
      && (s.page < 3 ==> r.writeBlock == s.writeBlock && r.page == s.page + 1)
      && (s.page == 3 ==> r.writeBlock == -1 && r.page == 0)
      && forall a: nat :: a < RAM_SIZE ==>
           r.eeprom[a] == if InBlock(s.writeBlock, a) && PageIn(a) == s.page && ok then s.ram[a] else s.eeprom[a]
  {
    var at := BLOCK_SIZE * s.writeBlock + s.page * PAGE_SIZE;
    forall a: nat | a < RAM_SIZE
      ensures at <= a < at + PAGE_SIZE <==> InBlock(s.writeBlock, a) && PageIn(a) == s.page
    {
      PageOfByte(a);
    }
  }

  /** The passes left of a block, byte by byte. */
  lemma {:induction false} BlockPasses(s: Store, rs: seq<bool>)
    requires s.Valid() && s.writeBlock >= 0 && s.page + |rs| == 4
    ensures
      var r := Passes(s, rs);
      && r.ram == s.ram
      && forall a: nat :: a < RAM_SIZE ==>
           r.eeprom[a] ==
           if InBlock(s.writeBlock, a) && PageIn(a) >= s.page && rs[PageIn(a) - s.page] then s.ram[a] else s.eeprom[a]
    decreases |rs|
  {
    hide Flush, InBlock, PageIn;
    OnePass(s, rs[0]);
    if |rs| > 1 {
      BlockPasses(Flush(s, rs[0]), rs[1..]);
    } else {
      assert Passes(s, rs) == Flush(s, rs[0]);
    }
  }

  /** The four passes save every RAM, over every EEPROM. */
  ghost predicate AlwaysSaves(b: nat, rs: seq<bool>) {
    forall s: Store :: s.Valid() && s.writeBlock == b && s.page == 0 ==> BlockSaved(Passes(s, rs), b)
  }

  /** A flushed block is sure to be in the EEPROM if and only if the EEPROM took all four
      pages: the code has no second chance. */
  lemma AlwaysSavesIff(b: nat, rs: seq<bool>)
    requires b < BLOCKS && |rs| == 4
    ensures AlwaysSaves(b, rs) <==> rs == [true, true, true, true]
  {
    hide Flush, InBlock, PageIn, Passes;
    if rs == [true, true, true, true] {
      forall s: Store | s.Valid() && s.writeBlock == b && s.page == 0 ensures BlockSaved(Passes(s, rs), b) {
        BlockPasses(s, rs);
      }
    } else {
      var p :| 0 <= p < 4 && !rs[p];
      var s := Store(seq(RAM_SIZE, _ => 1), seq(RAM_SIZE, _ => 0), seq(MAP_BYTES, _ => 0), b, 0);
      BlockPasses(s, rs);
      var a := PageStart(b, p);
      assert Passes(s, rs).eeprom[a] == 0 && Passes(s, rs).ram[a] == 1;
      assert !PageSaved(Passes(s, rs), b, p);
    }
  }

  function PageStart(b: nat, p: nat): (a: nat)
    requires b < BLOCKS && p < 4
    ensures a < RAM_SIZE && InBlock(b, a) && PageIn(a) == p
  {
    b * BLOCK_SIZE + p * PAGE_SIZE
  }

  // ------------------------------------------------------------------- in every run

  /** The packet, if it is data, goes to another block. */
  predicate Misses(h: Disk, input: Input, b: nat) {
    h.phase.DataOut? && input.packet.Some? ==> h.phase.lba + |h.phase.payload| / BLOCK_SIZE != b
  }

  predicate Untouched(s: System, inputs: seq<Input>, b: nat)
    requires s.dev.Valid()
    decreases |inputs|
  {
    inputs == []
    || (Legal(s, inputs[0]) && Misses(s.host, inputs[0], b) && Untouched(Next(s, inputs[0]), inputs[1..], b))
  }

  /** A clean block and its bytes are left alone by a packet that goes elsewhere. */
  lemma PollMisses(s: System, input: Input, b: nat)
    requires Inv(s) && Legal(s, input) && Misses(s.host, input, b) && b < BLOCKS
    ensures
      var d, p := s.dev.store, Poll(s.dev, input.packet).store;
      && p.eeprom == d.eeprom && p.writeBlock == d.writeBlock && p.page == d.page
      && (IsDirty(p.dirty, b) <==> IsDirty(d.dirty, b))
      && forall a: nat :: a < RAM_SIZE && InBlock(b, a) ==> p.ram[a] == d.ram[a]
  {
    hide TakeCommand, TakeData, IsDirty, Mark;
    if input.packet.Some? && s.host.phase.DataOut? {
      BytesLand(s.dev, s.host, input.packet.value);
      CountersAdvance(s.dev, s.host, input.packet.value);
      MarkOne(s.dev.store.dirty, s.dev.logicalBlock + s.dev.wr.page, b);
    }
  }

  /** A flush step, seen from a clean block. */
  lemma FlushMisses(s: Store, ok: bool, b: nat)
    requires s.Valid() && b < BLOCKS && !IsDirty(s.dirty, b)
    ensures
      var r := Flush(s, ok);
      && r.ram == s.ram && !IsDirty(r.dirty, b)
      && (r.writeBlock == b <==> s.writeBlock == b && s.page < 3)
      && (r.writeBlock == b ==> r.page == s.page + 1)
      && forall a: nat :: a < RAM_SIZE && InBlock(b, a) ==>
           r.eeprom[a] == if s.writeBlock == b && PageIn(a) == s.page && ok then s.ram[a] else s.eeprom[a]
  {
    hide IsDirty, Clear, PageIn;
    if s.writeBlock >= 0 {
      OnePass(s, ok);
    } else {
      FirstDirtyIsLowest(s.dirty, 0);
      var c := FirstDirty(s.dirty, 0);
      if c >= 0 {
        ClearOne(s.dirty, c, b);
      }
    }
  }

  lemma LegalFacts(s: System, input: Input)
    requires Legal(s, input)
    ensures input.Valid() && (input.packet.Some? ==> input.packet.value.Valid())
  {}

  lemma TurnStore(s: System, input: Input)
    requires Inv(s) && Legal(s, input)
    ensures Next(s, input).dev.store == Flush(Poll(s.dev, input.packet).store, input.busOk)
  {
    hide SendTurn, CommandTurn, Poll, Flush;
  }

  /** In every legal run in which no data packet goes to the clean block `b`, its RAM stays,
      and each page of it that was still to be copied ends as the EEPROM answered at its one
      pass: as in RAM if it was taken, as it was if it was refused. */
  lemma {:induction false} BlockFate(s: System, inputs: seq<Input>, b: nat)
    requires Inv(s) && b < BLOCKS && !IsDirty(s.dev.store.dirty, b) && Untouched(s, inputs, b)
    ensures LegalRun(s, inputs)
    ensures
      var d, r := s.dev.store, Run(s, inputs).dev.store;
      && !IsDirty(r.dirty, b)
      && forall a: nat :: a < RAM_SIZE && InBlock(b, a) ==>
           && r.ram[a] == d.ram[a]
           && r.eeprom[a] ==
              if d.writeBlock == b && 0 <= PageIn(a) - d.page < |inputs| && inputs[PageIn(a) - d.page].busOk
              then d.ram[a] else d.eeprom[a]
    decreases |inputs|
  {
    hide Inv, Legal, Next, Flush, Poll, IsDirty, InBlock, PageIn, Misses;
    InvFacts(s);
    if inputs != [] {
      var t := Next(s, inputs[0]);
      LegalFacts(s, inputs[0]);
      TurnKeeps(s, inputs[0]);
      PollMisses(s, inputs[0], b);
      FlushMisses(Poll(s.dev, inputs[0].packet).store, inputs[0].busOk, b);
      TurnStore(s, inputs[0]);
      BlockFate(t, inputs[1..], b);
    }
  }

  /** A block whose four passes lie in such a run is in the EEPROM afterwards, and stays
      there, if and only if every page of it was taken or was there before. */
  lemma BlockSavedIff(s: System, inputs: seq<Input>, b: nat)
    requires Inv(s) && b < BLOCKS && s.dev.store.writeBlock == b && s.dev.store.page == 0
    requires !IsDirty(s.dev.store.dirty, b) && Untouched(s, inputs, b) && |inputs| >= 4
    ensures LegalRun(s, inputs)
    ensures BlockSaved(Run(s, inputs).dev.store, b) <==>
            forall p :: 0 <= p < 4 ==> inputs[p].busOk || PageSaved(s.dev.store, b, p)
  {
    hide Inv, IsDirty, InBlock, PageIn, Untouched;
    InvFacts(s);
    BlockFate(s, inputs, b);
    forall p | 0 <= p < 4
      ensures PageSaved(Run(s, inputs).dev.store, b, p) <==> inputs[p].busOk || PageSaved(s.dev.store, b, p)
    {
      hide Run;
    }
  }

  /** While the EEPROM refuses everything, no run changes it; the host's WRITEs are answered
      in that run as in any other. */
  lemma {:induction false} NothingSaved(s: System, inputs: seq<Input>)
    requires Inv(s) && LegalRun(s, inputs) && forall i :: 0 <= i < |inputs| ==> !inputs[i].busOk
    ensures Run(s, inputs).dev.store.eeprom == s.dev.store.eeprom
    decreases |inputs|
  {
    hide Inv, Legal, Next, Flush, Poll;
    InvFacts(s);
    if inputs != [] {
      LegalFacts(s, inputs[0]);
      TurnKeeps(s, inputs[0]);
      TurnStore(s, inputs[0]);
      PollKeepsEeprom(s, inputs[0]);
      RefusedPass(Poll(s.dev, inputs[0].packet).store);
      NothingSaved(Next(s, inputs[0]), inputs[1..]);
    }
  }

  lemma PollKeepsEeprom(s: System, input: Input)
    requires Inv(s) && Legal(s, input)
    ensures Poll(s.dev, input.packet).store.eeprom == s.dev.store.eeprom
  {
    hide WriteRam, SendStatus, Mark;
  }

  lemma RefusedPass(s: Store)
    requires s.Valid()
    ensures Flush(s, false).eeprom == s.eeprom
  {}
}
