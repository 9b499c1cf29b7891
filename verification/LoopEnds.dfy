/** When the loops of src/ext_eeprom.c end, exactly. In the split loop, behind the wrap, every
    turn adds the whole step to a 16-bit counter: it ends if some value the counter can take
    lies behind the end of the block, or near enough below address 65536 to be clipped. */
module LoopEnds {
  import opened Bytes
  import opened PageSplit
  import opened PowersOfTwo

  /** The greatest common divisor of the step and the page. */
  function Common(addr: nat): (g: nat)
    ensures 1 <= g <= Step(addr)
    ensures g in {1, 2, 4, 8, 16, 32, 64, 128}
  {
    TwoPart(Step(addr))
  }

  /** What a caller can check: the block ends inside 64 KiB, or a value of the counter is left
      behind its end, or its last turn before address 65536 is clipped. */
  predicate Ends(addr: nat, number: nat) {
    || addr + number <= EEPROM_SIZE
    || number + Common(addr) <= EEPROM_SIZE
    || (addr < EEPROM_PAGE_SIZE && 2 * addr + number + Common(addr) < EEPROM_SIZE + EEPROM_PAGE_SIZE)
  }

  lemma CommonDivides(addr: nat)
    ensures
      var g := Common(addr);
      Step(addr) % g == 0 && Step(addr) == g * (Step(addr) / g) && Step(addr) / g % 2 == 1
  {
    hide Step, TwoPart;
    TwoPartDivides(Step(addr));
  }

  lemma AddressDivides(addr: nat)
    ensures addr % Common(addr) == 0
  {
    CommonDivides(addr);
    hide Common;
    BackFrom(addr, addr / EEPROM_PAGE_SIZE + 1, Step(addr), Common(addr));
  }

  // ------------------------------------------------------- every value is reached

  /** Some number of whole steps brings the counter to any multiple of the common divisor. */
  lemma StepReaches(addr: nat, c: nat) returns (k: nat)
    requires c < EEPROM_SIZE && c % Common(addr) == 0
    ensures k * Step(addr) % 0x1_0000 == c
  {
    hide Step, Common, Pow2;
    var g := Common(addr);
    var m, t := Step(addr) / g, c / g;
    CommonDivides(addr);
    var e := FillsCounter(g);
    var q;
    k, q := OddReaches(m, t, e);
    Scale(k, g, m, t, q, Pow2(e));
    WholeRounds(k * Step(addr), q, c);
  }

  // ------------------------------------------------------------- the loop ends

  /** Behind the wrap, as long as the loop goes on, the counter is a number of whole steps. */
  lemma {:induction false} CounterIsSteps(addr: nat, number: nat, k: nat)
    requires addr < EEPROM_SIZE && 1 <= number < EEPROM_SIZE && addr + number > EEPROM_SIZE
    ensures !GoesOn(addr, number, k) || At(addr, number, k) == k * Step(addr) % 0x1_0000
  {
    hide At, Width, Step;
    if k == 0 {
      FirstCounter(addr, number);
    } else {
      CounterIsSteps(addr, number, k - 1);
      var c := At(addr, number, k - 1);
      AtNext(addr, number, k - 1, c);
      OneMore(k, Step(addr));
    }
  }

  lemma OneMore(k: nat, w: nat)
    requires k >= 1
    ensures k * w == (k - 1) * w + w
    ensures ((k - 1) * w % 0x1_0000 + w) % 0x1_0000 == k * w % 0x1_0000
  {
    var n := (k - 1) * w;
    assert k * w == n + w;
  }

  /** The last turn before address 65536 ends with the block: it is clipped, or not needed. */
  lemma ClippedTurn(addr: nat, number: nat, k: nat)
    requires addr < EEPROM_PAGE_SIZE && 1 <= number < EEPROM_SIZE && addr + number > EEPROM_SIZE
    requires 2 * addr + number + Common(addr) < EEPROM_SIZE + EEPROM_PAGE_SIZE
    requires At(addr, number, k) == EEPROM_SIZE - addr - Common(addr)
    ensures !GoesOn(addr, number, k + 1)
  {
    hide At, Common;
    var c := At(addr, number, k);
    AtNext(addr, number, k, c);
    assert c < number ==> c + Width(addr, number, c) == number;
  }

  lemma EndsAt(addr: nat, number: nat) returns (k: nat)
    requires addr < EEPROM_SIZE && number < EEPROM_SIZE && Ends(addr, number)
    ensures !GoesOn(addr, number, k)
  {
    hide At, Width, Step, Common;
    var g := Common(addr);
    CommonDivides(addr);
    AddressDivides(addr);
    if number == 0 {
      k := 0;
    } else if addr + number <= EEPROM_SIZE {
      EndsInTime(addr, number, number);
      k := number;
    } else if number + g <= EEPROM_SIZE {
      LastMultiple(g, 0);
      k := StepReaches(addr, EEPROM_SIZE - g);
      CounterIsSteps(addr, number, k);
    } else {
      LastMultiple(g, addr);
      k := StepReaches(addr, EEPROM_SIZE - addr - g);
      CounterIsSteps(addr, number, k);
      if GoesOn(addr, number, k) {
        ClippedTurn(addr, number, k);
        k := k + 1;
      }
    }
  }

  lemma LastMultiple(g: nat, a: nat)
    requires g in {1, 2, 4, 8, 16, 32, 64, 128} && a % g == 0 && a + g <= EEPROM_SIZE
    ensures (EEPROM_SIZE - a - g) % g == 0
  {
    SumDivides(a, g, g);
    BackFrom(EEPROM_SIZE - a - g, 512, a + g, g);
  }

  // ------------------------------------------------------------ it does not end

  /** No turn is clipped. */
  lemma NotClipped(addr: nat, number: nat, c: nat)
    requires addr < EEPROM_SIZE && c < number < EEPROM_SIZE && !Ends(addr, number) && c % Common(addr) == 0
    ensures Width(addr, number, c) == Step(addr)
  {
    hide Common;
    var g := Common(addr);
    CommonDivides(addr);
    AddressDivides(addr);
    SumDivides(addr, c, g);
    if addr + c < EEPROM_SIZE {
      ToEnd(addr + c, g);
    }
  }

  lemma ToEnd(c: nat, g: nat)
    requires g in {1, 2, 4, 8, 16, 32, 64, 128} && c % g == 0 && c < EEPROM_SIZE
    ensures c + g <= EEPROM_SIZE
  {
    PageDivides(g);
    ToMultiple(c, EEPROM_SIZE, g);
  }

  /** The counter after a whole step: no value of it is left behind the end. */
  lemma NextCounter(number: nat, c: nat, w: nat, g: nat)
    requires g in {1, 2, 4, 8, 16, 32, 64, 128} && c % g == 0 && w % g == 0 && w <= EEPROM_PAGE_SIZE
    requires c < number < EEPROM_SIZE && number + g > EEPROM_SIZE
    ensures
      var n := if c + w < 0x1_0000 then c + w else c + w - 0x1_0000;
      n % g == 0 && n < number
  {
    SumDivides(c, w, g);
    OverflowMultiple(c + w, g);
    ToEnd((c + w) % 0x1_0000, g);
  }

  /** Otherwise the block is written over and over. */
  lemma {:induction false} NeverEnds(addr: nat, number: nat, k: nat)
    requires addr < EEPROM_SIZE && number < EEPROM_SIZE && !Ends(addr, number)
    ensures GoesOn(addr, number, k) && At(addr, number, k) % Common(addr) == 0
  {
    hide At, Width, Step, Common;
    var g := Common(addr);
    CommonDivides(addr);
    if k == 0 {
      FirstCounter(addr, number);
      assert 0 % g == 0;
    } else {
      NeverEnds(addr, number, k - 1);
      var c := At(addr, number, k - 1);
      AtNext(addr, number, k - 1, c);
      NotClipped(addr, number, c);
      NextCounter(number, c, Step(addr), g);
    }
  }

  lemma EndsByNumber(addr: nat, number: nat)
    requires addr < EEPROM_SIZE && number < EEPROM_SIZE && NoOverflow(addr, number)
    ensures !GoesOn(addr, number, number)
  {
    hide At, NoOverflow;
    if number > 0 {
      EndsInTime(addr, number, number);
    }
  }

  /** Where the page condition holds as well, the counter does not overflow. */
  lemma EndsAtPages(addr: nat, number: nat)
    requires addr < EEPROM_SIZE && number < EEPROM_SIZE && Ends(addr, number)
    requires CutsAtPages(addr, Total(addr, number))
    ensures NoOverflow(addr, number)
  {
    hide Total;
    if addr + number > EEPROM_SIZE && EEPROM_PAGE_SIZE % Step(addr) == 0 {
      DivisorIsTwoPart(Step(addr));
    }
  }

  /** A loop that ended without leaving a page wrote the block, rounded up to whole steps if it
      goes on at address 0. */
  lemma EndedIsSplice(mem: seq<byte>, addr: nat, data: seq<byte>, number: nat, k: nat)
    requires ValidBlock(mem, addr, data, number) && Ends(addr, number) && !GoesOn(addr, number, k)
    requires CutsAtPages(addr, Total(addr, number))
    ensures Total(addr, number) <= |data| && Total(addr, number) < EEPROM_SIZE
    ensures Loop(mem, addr, data, number, k) == WrapSplice(mem, addr, data[..Total(addr, number)])
  {
    hide CutsAtPages, Cut, Loop, WrapSplice, Needed, Step, Total, At, Width, Ends, NoOverflow;
    TotalNeeded(addr, number);
    EndsAtPages(addr, number);
    TotalFits(addr, number);
    LoopIsSplice(mem, addr, data, number, k);
    AtIsCut(addr, number, k);
  }

  /** For every address and length, the loop ends exactly under that condition. */
  lemma LoopEndsIff(addr: nat, number: nat)
    requires addr < EEPROM_SIZE && number < EEPROM_SIZE
    ensures (exists k: nat :: !GoesOn(addr, number, k)) <==> Ends(addr, number)
  {
    hide GoesOn, Ends;
    if Ends(addr, number) {
      var k := EndsAt(addr, number);
    } else {
      forall k: nat ensures GoesOn(addr, number, k) {
        NeverEnds(addr, number, k);
      }
    }
  }

  /** The loop of `ext_eeprom_read_block` has an 8-bit counter and a 16-bit end, one before the
      length: it ends for one to 256 bytes. */
  lemma ReadEndsIff(number: nat)
    requires number < EEPROM_SIZE
    ensures (exists k: nat :: ReadDone(number, k)) <==> 1 <= number <= 0x100
  {
    if 1 <= number <= 0x100 {
      assert ReadDone(number, number - 1);
    }
  }

  /** After `k` turns the counter is at the end. */
  predicate ReadDone(number: nat, k: nat) {
    k % 0x100 >= (number + 0xffff) % 0x1_0000
  }
}
