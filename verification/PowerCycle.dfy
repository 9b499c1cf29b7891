/** What a power cycle finds in the EEPROM, exactly: the flush repairs every refused page that it
    copies again, and no other. */
module PowerCycle {
  import opened Bitmap
  import opened Device
  import opened Disk
  import opened System
  import opened FlushSteps
  import opened Runs

  /** A page the flush has still to copy. */
  predicate Awaits(s: Store, p: int)
    requires s.Valid()
  {
    && 0 <= p < RAM_SIZE / PAGE_SIZE
    && (IsDirty(s.dirty, p / 4) || (s.writeBlock == p / 4 && p % 4 >= s.page))
  }

  /** The refused pages that the flush will not copy again. */
  function Stranded(s: System): set<int>
    requires s.dev.Valid()
  {
    set p | p in s.lost && !Awaits(s.dev.store, p)
  }

  /** All that differs waits to be copied. */
  predicate OnlyWaiting(s: Store)
    requires s.Valid()
  {
    forall a: nat :: a < RAM_SIZE ==> Awaits(s, a / PAGE_SIZE) || s.ram[a] == s.eeprom[a]
  }

  // ------------------------------------------------------------------ one step

  /** Only the page that is copied stops waiting. */
  lemma StepAwaits(s: Store, p: int)
    requires s.Valid() && (s.writeBlock < 0 ==> s.page == 0)
    ensures
      if s.writeBlock >= 0 && p == NextPage(s) then Awaits(s, p)
      else Awaits(Flush(s, true), p) == Awaits(s, p)
  {
    hide IsDirty, Clear;
    if s.writeBlock < 0 && 0 <= p < RAM_SIZE / PAGE_SIZE {
      FirstDirtyIsLowest(s.dirty, 0);
      var b := FirstDirty(s.dirty, 0);
      if b >= 0 {
        ClearOne(s.dirty, b, p / 4);
      }
    }
  }

  lemma StepByte(s: Store, a: nat)
    requires s.Valid() && (s.writeBlock < 0 ==> s.page == 0) && a < RAM_SIZE
    ensures
      var r := Flush(s, true);
      && (Awaits(r, a / PAGE_SIZE) || r.ram[a] == r.eeprom[a] <==> Awaits(s, a / PAGE_SIZE) || s.ram[a] == s.eeprom[a])
  {
    hide IsDirty, Clear, Awaits;
    StepAwaits(s, a / PAGE_SIZE);
    PageOfByte(a);
    if s.writeBlock >= 0 {
      var at := BLOCK_SIZE * s.writeBlock + s.page * PAGE_SIZE;
      assert a / PAGE_SIZE == NextPage(s) <==> at <= a < at + PAGE_SIZE;
    }
  }

  lemma StepOnlyWaiting(s: Store)
    requires s.Valid() && (s.writeBlock < 0 ==> s.page == 0)
    ensures OnlyWaiting(Flush(s, true)) <==> OnlyWaiting(s)
  {
    hide Flush, Awaits;
    forall a: nat | a < RAM_SIZE
      ensures
        var r := Flush(s, true);
        Awaits(r, a / PAGE_SIZE) || r.ram[a] == r.eeprom[a] <==> Awaits(s, a / PAGE_SIZE) || s.ram[a] == s.eeprom[a]
    {
      StepByte(s, a);
    }
  }

  lemma StepStranded(s: Store, lost: set<int>)
    requires s.Valid() && (s.writeBlock < 0 ==> s.page == 0)
    ensures (set p | p in LostAfter(s, lost, true) && !Awaits(Flush(s, true), p)) ==
            (set p | p in lost && !Awaits(s, p))
  {
    hide Flush, Awaits;
    forall p | p in lost
      ensures p in LostAfter(s, lost, true) && !Awaits(Flush(s, true), p) <==> !Awaits(s, p)
    {
      StepAwaits(s, p);
    }
  }

  // ------------------------------------------------------------------- the run

  lemma {:induction false} RunStranded(s: System, inputs: seq<Input>)
    requires Inv(s) && WritesNothing(s, inputs) && BusWorks(inputs)
    ensures LegalRun(s, inputs)
    ensures
      var t := Run(s, inputs);
      && Inv(t) && t.dev.store.ram == s.dev.store.ram && Stranded(t) == Stranded(s)
      && (OnlyWaiting(t.dev.store) <==> OnlyWaiting(s.dev.store))
    decreases |inputs|
  {
    hide Inv, Legal, Turn, Work, OnlyWaiting, Arrived, Awaits, Flush, LostAfter;
    InvFacts(s);
    if inputs != [] {
      var t := Next(s, inputs[0]);
      IdleTurn(s, inputs[0]);
      InvFacts(t);
      AnswersSplit(s);
      FlushMissesRam(s.dev.store, true);
      StepOnlyWaiting(s.dev.store);
      StepStranded(s.dev.store, s.lost);
      RunStranded(t, inputs[1..]);
    }
  }

  // ------------------------------------------------------------------- at rest

  /** At rest nothing waits. */
  lemma RestAwaits(s: System)
    requires Inv(s) && Work(s.dev.store) == 0
    ensures Stranded(s) == s.lost
    ensures OnlyWaiting(s.dev.store) <==> s.dev.store.eeprom == s.dev.store.ram
  {
    hide Inv;
    InvFacts(s);
    AnswersSplit(s);
    FlushWorks(s.dev.store, true);
    forall p: int ensures !Awaits(s.dev.store, p) {
      assert 0 <= p < RAM_SIZE / PAGE_SIZE ==> p / 4 !in DirtySet(s.dev.store.dirty);
    }
  }

  /** Before: what differs and does not wait lies in stranded pages. */
  lemma BeforeFlush(s: System)
    requires Inv(s) && Arrived(s.host).1 == []
    ensures
      OnlyWaiting(s.dev.store) <==>
      forall a: nat :: a < RAM_SIZE && a / PAGE_SIZE in Stranded(s) ==> s.dev.store.ram[a] == s.dev.store.eeprom[a]
  {
    forall a: nat | a < RAM_SIZE
      ensures Awaits(s.dev.store, a / PAGE_SIZE) || s.dev.store.ram[a] == s.dev.store.eeprom[a] ||
              a / PAGE_SIZE in Stranded(s)
    {
      PageOfByte(a);
      NothingArriving(s, a);
    }
  }

  lemma NothingArriving(s: System, a: nat)
    requires Inv(s) && Arrived(s.host).1 == []
    ensures !Receiving(s.dev, a) && s.dev.store.ram == s.host.image
  {}

  /** Outside the data packets of a WRITE, after any run: enough turns with a working bus make
      the disk survive a power cycle, whatever commands the host goes on sending, if and only
      if each refused page that the flush will not copy again is in the EEPROM all the same.
      The other refused pages are repaired. */
  lemma SurvivesPowerCycle(s: System, inputs: seq<Input>)
    requires Inv(s) && Arrived(s.host).1 == []
    requires WritesNothing(s, inputs) && BusWorks(inputs) && |inputs| >= Work(s.dev.store)
    ensures LegalRun(s, inputs)
    ensures
      var t := Run(s, inputs);
      && t.host.image == s.host.image && t.lost == Stranded(s)
      && (t.dev.store.eeprom == s.host.image <==>
          forall a: nat :: a < RAM_SIZE && a / PAGE_SIZE in Stranded(s) ==> s.dev.store.ram[a] == s.dev.store.eeprom[a])
      && PowerUp(t.dev.store.eeprom).host.image == t.dev.store.eeprom
  {
    hide Inv, Work, Arrived, PowerUp, WritesNothing, Run, LegalRun, BusWorks, OnlyWaiting, Stranded;
    InvFacts(s);
    IdleRun(s, inputs);
    RunStranded(s, inputs);
    var t := Run(s, inputs);
    InvFacts(t);
    RestAwaits(t);
    BeforeFlush(s);
    NothingArriving(s, 0);
    PowerUpImage(t.dev.store.eeprom);
  }

  /** In particular, with no refused page stranded. */
  lemma NothingStranded(s: System, inputs: seq<Input>)
    requires Inv(s) && Arrived(s.host).1 == [] && forall p :: p in s.lost ==> Awaits(s.dev.store, p)
    requires WritesNothing(s, inputs) && BusWorks(inputs) && |inputs| >= Work(s.dev.store)
    ensures LegalRun(s, inputs)
    ensures
      var t := Run(s, inputs);
      && t.host.image == s.host.image && t.dev.store.eeprom == s.host.image && t.lost == {}
      && PowerUp(t.dev.store.eeprom).host.image == s.host.image
  {
    hide Inv, Work, Arrived, PowerUp, WritesNothing, Run, LegalRun, BusWorks, Awaits;
    SurvivesPowerCycle(s, inputs);
    InvFacts(s);
    assert Stranded(s) == {};
  }
}
