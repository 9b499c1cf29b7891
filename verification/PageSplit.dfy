/** How src/ext_eeprom.c splits a block into page writes to a 24AA512. The chip writes inside
    one 128-byte page and wraps there; the driver has to cut at page ends. For which
    arguments it does, exactly, 16-bit arithmetic included. */
module PageSplit {
  import opened Bytes

  const EEPROM_PAGE_SIZE := 128
  const EEPROM_SIZE := 0x1_0000

  // --------------------------------------------------------- the chip's memory

  /** Where byte `i` of a page write started at `addr` lands: the chip's address counter
      wraps inside the page. */
  function Landing(addr: nat, i: nat): nat {
    addr / EEPROM_PAGE_SIZE * EEPROM_PAGE_SIZE + (addr % EEPROM_PAGE_SIZE + i) % EEPROM_PAGE_SIZE
  }

  /** The memory after the chip took `data` as one page write at `addr`. */
  function PageWrite(mem: seq<byte>, addr: nat, data: seq<byte>): (r: seq<byte>)
    requires |mem| == EEPROM_SIZE && addr < EEPROM_SIZE
    ensures |r| == EEPROM_SIZE
  {
    if data == [] then mem
    else
      var n := |data| - 1;
      PageWrite(mem, addr, data[..n])[Landing(addr, n) := data[n]]
  }

  lemma LandingInside(addr: nat, i: nat)
    requires addr % EEPROM_PAGE_SIZE + i < EEPROM_PAGE_SIZE
    ensures Landing(addr, i) == addr + i
  {}

  /** A page write that ends inside its page is a plain write. */
  lemma {:induction false} PageWriteInside(mem: seq<byte>, addr: nat, data: seq<byte>)
    requires |mem| == EEPROM_SIZE && addr < EEPROM_SIZE
    requires addr % EEPROM_PAGE_SIZE + |data| <= EEPROM_PAGE_SIZE
    ensures addr + |data| <= EEPROM_SIZE
    ensures PageWrite(mem, addr, data) == Splice(mem, addr, data)
  {
    hide Landing;
    if data != [] {
      PageWriteInside(mem, addr, data[..|data| - 1]);
      LandingInside(addr, |data| - 1);
    }
  }

  /** A byte of memory no non-zero data byte lands on stays zero. */
  lemma {:induction false} PageWriteMisses(mem: seq<byte>, addr: nat, data: seq<byte>, t: nat)
    requires |mem| == EEPROM_SIZE && addr < EEPROM_SIZE && t < EEPROM_SIZE
    requires mem[t] == 0
    requires forall i :: 0 <= i < |data| && data[i] != 0 ==> Landing(addr, i) != t
    ensures PageWrite(mem, addr, data)[t] == 0
  {
    if data != [] {
      PageWriteMisses(mem, addr, data[..|data| - 1], t);
    }
  }

  // ------------------------------------------------------------ the split loop

  /** The step of the split loop, computed from the first address and never again. */
  function Step(addr: nat): (w: nat)
    ensures 1 <= w <= EEPROM_PAGE_SIZE
  {
    EEPROM_PAGE_SIZE - addr % EEPROM_PAGE_SIZE
  }

  /** The first data byte of turn `k`, and the end of the data for the turns after the last. */
  function Cut(addr: nat, number: nat, k: nat): (c: nat)
    ensures c <= number
  {
    var c := k * Step(addr);
    if c <= number then c else number
  }

  lemma CutNext(addr: nat, number: nat, k: nat)
    ensures Cut(addr, number, k) <= Cut(addr, number, k + 1) <= Cut(addr, number, k) + Step(addr)
    ensures Cut(addr, number, k + 1) == Min(number, Cut(addr, number, k) + Step(addr))
  {
    assert (k + 1) * Step(addr) == k * Step(addr) + Step(addr);
  }

  /** Turn `k` of the loop writes past the end of a physical page. */
  predicate Crosses(addr: nat, number: nat, k: nat) {
    var from, to := Cut(addr, number, k), Cut(addr, number, k + 1);
    (addr + from) % EEPROM_PAGE_SIZE + (to - from) > EEPROM_PAGE_SIZE
  }

  /** What a caller can check: the block ends by the end of its second page, or the first
      step divides the page. */
  predicate CutsAtPages(addr: nat, number: nat) {
    addr % EEPROM_PAGE_SIZE + number <= 2 * EEPROM_PAGE_SIZE
    || EEPROM_PAGE_SIZE % Step(addr) == 0
  }

  // ------------------------------------------------- when no turn crosses a page

  lemma PageOffset(addr: nat, p: nat)
    ensures (addr + Step(addr) + p) % EEPROM_PAGE_SIZE == p % EEPROM_PAGE_SIZE
  {
    assert addr + Step(addr) == EEPROM_PAGE_SIZE * (addr / EEPROM_PAGE_SIZE + 1);
  }

  lemma {:induction false} MulUp(a: int, n: nat, w: nat)
    ensures (a + n) * w >= a * w
    decreases n
  {
    if n > 0 {
      MulUp(a, n - 1, w);
      assert (a + n) * w == (a + n - 1) * w + w;
    }
  }

  lemma NextMultiple(e: int, q: int, w: nat)
    requires e * w < q * w
    ensures e * w + w <= q * w
  {
    if e >= q {
      MulUp(q, e - q, w);
    } else {
      MulUp(e + 1, q - e - 1, w);
      assert (e + 1) * w == e * w + w;
    }
  }

  lemma Regroup(j: int, d: int, q: int, w: int)
    ensures j * w - d * (q * w) == (j - d * q) * w
  {}

  /** Multiples of a divisor of the page never straddle a page end. */
  lemma MultipleFits(w: nat, j: nat)
    requires 1 <= w <= EEPROM_PAGE_SIZE && EEPROM_PAGE_SIZE % w == 0
    ensures (j * w) % EEPROM_PAGE_SIZE + w <= EEPROM_PAGE_SIZE
  {
    var q, d := EEPROM_PAGE_SIZE / w, j * w / EEPROM_PAGE_SIZE;
    assert q * w == EEPROM_PAGE_SIZE;
    Regroup(j, d, q, w);
    NextMultiple(j - d * q, q, w);
  }

  /** Every turn but the first starts at a multiple of the step, seen from its page. */
  lemma LaterTurn(addr: nat, number: nat, k: nat)
    requires k > 0 && Cut(addr, number, k) < number
    ensures
      var p := (k - 1) * Step(addr);
      Cut(addr, number, k) == p + Step(addr)
      && (addr + Cut(addr, number, k)) % EEPROM_PAGE_SIZE == p % EEPROM_PAGE_SIZE
  {
    var p := (k - 1) * Step(addr);
    assert k * Step(addr) == Step(addr) + p;
    PageOffset(addr, p);
  }

  lemma TurnInside(addr: nat, number: nat, k: nat)
    requires CutsAtPages(addr, number)
    ensures !Crosses(addr, number, k)
  {
    hide Cut, Step;
    CutNext(addr, number, k);
    var from := Cut(addr, number, k);
    if k > 0 && from < number {
      hide Crosses;
      LaterTurn(addr, number, k);
      LaterInside(addr, number, k, (k - 1) * Step(addr));
    } else {
      FirstTurn(addr, number, k);
    }
  }

  lemma LaterInside(addr: nat, number: nat, k: nat, p: nat)
    requires CutsAtPages(addr, number) && k > 0 && Cut(addr, number, k) < number && p == (k - 1) * Step(addr)
    requires Cut(addr, number, k) == p + Step(addr)
    requires (addr + Cut(addr, number, k)) % EEPROM_PAGE_SIZE == p % EEPROM_PAGE_SIZE
    ensures !Crosses(addr, number, k)
  {
    hide Cut, Step;
    if EEPROM_PAGE_SIZE % Step(addr) == 0 {
      MultipleFits(Step(addr), k - 1);
    } else {
      SecondTurn(addr, number, p);
    }
    CutNext(addr, number, k);
    TurnFits(addr, number, Cut(addr, number, k), Cut(addr, number, k + 1), p);
  }

  lemma TurnFits(addr: nat, number: nat, from: nat, to: nat, p: nat)
    requires from <= to <= number && to <= from + Step(addr) && (addr + from) % EEPROM_PAGE_SIZE == p % EEPROM_PAGE_SIZE
    requires p % EEPROM_PAGE_SIZE + Step(addr) <= EEPROM_PAGE_SIZE
             || p % EEPROM_PAGE_SIZE + (number - from) <= EEPROM_PAGE_SIZE
    ensures (addr + from) % EEPROM_PAGE_SIZE + (to - from) <= EEPROM_PAGE_SIZE
  {
    hide Step;
  }

  lemma SecondTurn(addr: nat, number: nat, p: nat)
    requires addr % EEPROM_PAGE_SIZE + number <= 2 * EEPROM_PAGE_SIZE && p + Step(addr) < number
    ensures p % EEPROM_PAGE_SIZE + (number - (p + Step(addr))) <= EEPROM_PAGE_SIZE
  {
    assert p < EEPROM_PAGE_SIZE;
  }

  lemma FirstTurn(addr: nat, number: nat, k: nat)
    requires k == 0 || Cut(addr, number, k) == number
    ensures !Crosses(addr, number, k)
  {
    CutNext(addr, number, k);
  }

  // ------------------------------------------------- the loop in 16-bit arithmetic

  /** What turn at data byte `c` writes; addresses are 16 bits wide, the end is not. */
  function Width(addr: nat, number: nat, c: nat): (w: nat)
    requires addr < EEPROM_SIZE && c < number < EEPROM_SIZE
    ensures 1 <= w <= Step(addr)
    ensures w == Step(addr) || c + w == number
    ensures addr + number <= EEPROM_SIZE ==> c + w <= number
  {
    var current := (addr + c) % 0x1_0000;
    if current + Step(addr) > addr + number then addr + number - current else Step(addr)
  }

  /** `current_number` after `k` turns. */
  function At(addr: nat, number: nat, k: nat): (c: nat)
    requires addr < EEPROM_SIZE && number < EEPROM_SIZE
    ensures c < 0x1_0000
  {
    if k == 0 then 0
    else
      var c := At(addr, number, k - 1);
      if c >= number then c else (c + Width(addr, number, c)) % 0x1_0000
  }

  /** How far behind the buffer's start the loop may read: a block that goes on at address 0 is
      not clipped. */
  function Needed(addr: nat, number: nat): nat {
    if addr + number <= EEPROM_SIZE then number else number + Step(addr) - 1
  }

  predicate ValidBlock(mem: seq<byte>, addr: nat, data: seq<byte>, number: nat) {
    |mem| == EEPROM_SIZE && addr < EEPROM_SIZE && number < EEPROM_SIZE && |data| == Needed(addr, number)
  }

  /** The chip after `k` turns. */
  function Loop(mem: seq<byte>, addr: nat, data: seq<byte>, number: nat, k: nat): (r: seq<byte>)
    requires ValidBlock(mem, addr, data, number)
    ensures |r| == EEPROM_SIZE
  {
    if k == 0 then mem
    else
      var c := At(addr, number, k - 1);
      if c >= number then Loop(mem, addr, data, number, k - 1)
      else
        PageWrite(Loop(mem, addr, data, number, k - 1), (addr + c) % 0x1_0000, data[c..c + Width(addr, number, c)])
  }

  // ------------------------------------------------- what the block should become

  /** Where address `a` lies in a block that starts at `addr` and goes on at address 0. */
  function Offset(addr: nat, a: nat): (o: nat)
    requires addr < EEPROM_SIZE && a < EEPROM_SIZE
    ensures o == if addr <= a then a - addr else a + EEPROM_SIZE - addr
  {
    (a + EEPROM_SIZE - addr) % EEPROM_SIZE
  }

  function WrapSplice(mem: seq<byte>, addr: nat, block: seq<byte>): (r: seq<byte>)
    requires |mem| == EEPROM_SIZE && addr < EEPROM_SIZE && |block| <= EEPROM_SIZE
    ensures |r| == EEPROM_SIZE
    ensures forall a :: 0 <= a < EEPROM_SIZE ==>
              r[a] == if Offset(addr, a) < |block| then block[Offset(addr, a)] else mem[a]
  {
    var room := EEPROM_SIZE - addr;
    if |block| <= room then Splice(mem, addr, block)
    else Splice(Splice(mem, addr, block[..room]), 0, block[room..])
  }

  lemma WrapSpliceNext(mem: seq<byte>, addr: nat, data: seq<byte>, from: nat, to: nat)
    requires |mem| == EEPROM_SIZE && addr < EEPROM_SIZE && from <= to <= |data| && to <= EEPROM_SIZE
    requires (addr + from) % EEPROM_SIZE + (to - from) <= EEPROM_SIZE
    ensures Splice(WrapSplice(mem, addr, data[..from]), (addr + from) % EEPROM_SIZE, data[from..to]) ==
            WrapSplice(mem, addr, data[..to])
  {
    hide Offset, Splice, WrapSplice;
    var start := (addr + from) % EEPROM_SIZE;
    assert start == if addr + from < EEPROM_SIZE then addr + from else addr + from - EEPROM_SIZE;
    var m := WrapSplice(mem, addr, data[..from]);
    var l, r := Splice(m, start, data[from..to]), WrapSplice(mem, addr, data[..to]);
    forall a | 0 <= a < EEPROM_SIZE ensures l[a] == r[a] {
      assert start <= a < start + (to - from) <==> from <= Offset(addr, a) < to;
    }
  }

  /** What the loop really writes of a block whose turns keep to their pages: behind the wrap
      it does not stop before a whole step. */
  function Total(addr: nat, number: nat): (t: nat)
    requires number >= 1 || addr <= EEPROM_SIZE
    ensures t >= number && (addr + number <= EEPROM_SIZE ==> t == number)
    ensures addr + number > EEPROM_SIZE ==> t % Step(addr) == 0 && t < number + Step(addr)
    ensures addr + number > EEPROM_SIZE && number % Step(addr) == 0 ==> t == number
  {
    if addr + number <= EEPROM_SIZE then number
    else
      var w := Step(addr);
      RoundUp(number, w);
      (number + w - 1) / w * w
  }

  lemma RoundUp(n: nat, w: nat)
    requires n >= 1 && w >= 1
    ensures n <= (n + w - 1) / w * w < n + w && (n + w - 1) / w * w % w == 0
    ensures n % w == 0 ==> (n + w - 1) / w * w == n
  {
    var q := (n + w - 1) / w;
    assert n + w - 1 == q * w + (n + w - 1) % w;
    if n % w == 0 {
      var p := n / w;
      assert n == p * w;
      if q * w > n {
        NextMultiple(p, q, w);
      }
    }
    MultipleMod(q, w);
  }

  lemma MultipleMod(q: nat, w: nat)
    requires w >= 1
    ensures q * w % w == 0
  {
    var n := q * w;
    var d, r := n / w, n % w;
    assert n == d * w + r;
    if r > 0 {
      NextMultiple(d, q, w);
    }
  }

  lemma ToMultiple(c: nat, t: nat, w: nat)
    requires w >= 1 && c % w == 0 && t % w == 0 && c < t
    ensures c + w <= t
  {
    assert c == c / w * w && t == t / w * w;
    NextMultiple(c / w, t / w, w);
  }

  // ---------------------------------------------- when the block arrives unharmed

  /** A turn that ends inside its page is a whole step, unless the block ends inside 64 KiB. */
  lemma WholeStep(addr: nat, number: nat, c: nat)
    requires addr < EEPROM_SIZE && c < number < EEPROM_SIZE && addr + number > EEPROM_SIZE
    requires (addr + c) % EEPROM_PAGE_SIZE + Step(addr) <= EEPROM_PAGE_SIZE
    ensures Width(addr, number, c) == Step(addr)
  {
    hide Step;
  }

  lemma PageOffsetWraps(x: nat)
    ensures x % EEPROM_SIZE % EEPROM_PAGE_SIZE == x % EEPROM_PAGE_SIZE
    ensures x % EEPROM_SIZE / EEPROM_PAGE_SIZE == x / EEPROM_PAGE_SIZE % 512
  {
    var q, y := x / EEPROM_SIZE, x % EEPROM_SIZE;
    var p, r := y / EEPROM_PAGE_SIZE, y % EEPROM_PAGE_SIZE;
    assert x == EEPROM_PAGE_SIZE * (512 * q + p) + r;
  }

  lemma PageEnd(y: nat, w: nat)
    requires y < EEPROM_SIZE && y % EEPROM_PAGE_SIZE + w <= EEPROM_PAGE_SIZE
    ensures y + w <= EEPROM_SIZE
  {
    assert y == EEPROM_PAGE_SIZE * (y / EEPROM_PAGE_SIZE) + y % EEPROM_PAGE_SIZE;
  }

  lemma InsidePage(addr: nat, c: nat, w: nat)
    requires addr < EEPROM_SIZE && (addr + c) % EEPROM_PAGE_SIZE + w <= EEPROM_PAGE_SIZE
    ensures (addr + c) % EEPROM_SIZE % EEPROM_PAGE_SIZE + w <= EEPROM_PAGE_SIZE
    ensures (addr + c) % EEPROM_SIZE + w <= EEPROM_SIZE
  {
    PageOffsetWraps(addr + c);
    PageEnd((addr + c) % EEPROM_SIZE, w);
  }

  lemma CutIsMultiple(addr: nat, t: nat, k: nat)
    requires t % Step(addr) == 0
    ensures Cut(addr, t, k) % Step(addr) == 0
  {
    hide Step;
    MultipleMod(k, Step(addr));
  }

  /** As long as no turn leaves its page, the 16-bit loop cuts where `Cut` says, for the block
      rounded up behind the wrap. */
  lemma TurnCuts(addr: nat, number: nat, k: nat)
    requires addr < EEPROM_SIZE && 1 <= number && Total(addr, number) < EEPROM_SIZE
    requires CutsAtPages(addr, Total(addr, number)) && Cut(addr, Total(addr, number), k) < number
    ensures
      var t := Total(addr, number);
      var c := Cut(addr, t, k);
      && c + Width(addr, number, c) == Cut(addr, t, k + 1)
      && (addr + c) % EEPROM_SIZE % EEPROM_PAGE_SIZE + Width(addr, number, c) <= EEPROM_PAGE_SIZE
      && (addr + c) % EEPROM_SIZE + Width(addr, number, c) <= EEPROM_SIZE
      && (Cut(addr, t, k + 1) < number || Cut(addr, t, k + 1) == t)
  {
    hide CutsAtPages, Cut, Step;
    var t, w := Total(addr, number), Step(addr);
    var c, to := Cut(addr, t, k), Cut(addr, t, k + 1);
    CutNext(addr, t, k);
    TurnInside(addr, t, k);
    if addr + number > EEPROM_SIZE {
      hide Total, Width;
      CutIsMultiple(addr, t, k);
      CutIsMultiple(addr, t, k + 1);
      ToMultiple(c, t, w);
      WholeStep(addr, number, c);
      if to < t {
        ToMultiple(to, t, w);
      }
    }
    InsidePage(addr, c, to - c);
  }

  lemma AtNext(addr: nat, number: nat, k: nat, c: nat)
    requires addr < EEPROM_SIZE && number < EEPROM_SIZE && c == At(addr, number, k)
    ensures
      At(addr, number, k + 1) ==
      if c >= number then c
      else if c + Width(addr, number, c) < 0x1_0000 then c + Width(addr, number, c)
      else c + Width(addr, number, c) - 0x1_0000
  {
    hide Width;
  }

  lemma FirstCounter(addr: nat, number: nat)
    requires addr < EEPROM_SIZE && number < EEPROM_SIZE
    ensures At(addr, number, 0) == 0
  {}

  lemma {:induction false} AtIsCut(addr: nat, number: nat, k: nat)
    requires addr < EEPROM_SIZE && Total(addr, number) < EEPROM_SIZE
    requires CutsAtPages(addr, Total(addr, number))
    ensures
      var c := Cut(addr, Total(addr, number), k);
      At(addr, number, k) == c && (c < number || c == Total(addr, number))
  {
    hide CutsAtPages, Width, Cut, Total, Step, At;
    var t := Total(addr, number);
    if k == 0 {
      NoCutYet(addr, t);
      FirstCounter(addr, number);
    } else {
      AtIsCut(addr, number, k - 1);
      CutNext(addr, t, k - 1);
      AtNext(addr, number, k - 1, Cut(addr, t, k - 1));
      if Cut(addr, t, k - 1) < number {
        TurnCuts(addr, number, k - 1);
      }
    }
  }

  lemma TotalNeeded(addr: nat, number: nat)
    requires number >= 1 || addr <= EEPROM_SIZE
    ensures Total(addr, number) <= Needed(addr, number)
  {}

  lemma {:induction false} LoopIsSplice(mem: seq<byte>, addr: nat, data: seq<byte>, number: nat, k: nat)
    requires ValidBlock(mem, addr, data, number) && Total(addr, number) < EEPROM_SIZE
    requires CutsAtPages(addr, Total(addr, number))
    ensures
      var c := Cut(addr, Total(addr, number), k);
      c <= |data| && Loop(mem, addr, data, number, k) == WrapSplice(mem, addr, data[..c])
  {
    hide CutsAtPages, Width, Cut, Total, WrapSplice, PageWrite, At, Needed;
    TotalNeeded(addr, number);
    var t := Total(addr, number);
    if k == 0 {
      NoCutYet(addr, t);
      NothingYet(mem, addr, data);
    } else {
      LoopIsSplice(mem, addr, data, number, k - 1);
      AtIsCut(addr, number, k - 1);
      AtIsCut(addr, number, k);
      CutNext(addr, t, k - 1);
      var c := Cut(addr, t, k - 1);
      if c < number {
        TurnCuts(addr, number, k - 1);
        LoopTurn(mem, Loop(mem, addr, data, number, k - 1), addr, data, c, c + Width(addr, number, c));
      }
    }
  }

  lemma NothingYet(mem: seq<byte>, addr: nat, data: seq<byte>)
    requires |mem| == EEPROM_SIZE && addr < EEPROM_SIZE
    ensures WrapSplice(mem, addr, data[..0]) == mem
  {}

  lemma LoopTurn(mem: seq<byte>, m: seq<byte>, addr: nat, data: seq<byte>, c: nat, to: nat)
    requires |mem| == EEPROM_SIZE && addr < EEPROM_SIZE && c <= to <= |data| && to <= EEPROM_SIZE
    requires m == WrapSplice(mem, addr, data[..c])
    requires (addr + c) % EEPROM_SIZE % EEPROM_PAGE_SIZE + (to - c) <= EEPROM_PAGE_SIZE
    ensures PageWrite(m, (addr + c) % EEPROM_SIZE, data[c..to]) == WrapSplice(mem, addr, data[..to])
  {
    hide WrapSplice, PageWrite, Splice;
    PageWriteInside(m, (addr + c) % EEPROM_SIZE, data[c..to]);
    WrapSpliceNext(mem, addr, data, c, to);
  }

  lemma NoCutYet(addr: nat, number: nat)
    ensures Cut(addr, number, 0) == 0
  {}

  lemma AllTurns(addr: nat, number: nat)
    ensures Cut(addr, number, number) == number
  {
    assert number * Step(addr) >= number;
  }

  /** What a caller can check: the turns keep to their pages, and a block that goes on at
      address 0 is a whole number of steps. */
  predicate Right(addr: nat, number: nat) {
    CutsAtPages(addr, number) && (addr + number <= EEPROM_SIZE || number % Step(addr) == 0)
  }

  // ------------------------------------------------------- when it does not arrive

  lemma LandsApart(addr: nat, i: nat, j: nat)
    requires i < j < EEPROM_PAGE_SIZE
    ensures Landing(addr, i) != Landing(addr, j)
  {}

  lemma {:induction false} PageWriteAt(mem: seq<byte>, addr: nat, data: seq<byte>, i: nat)
    requires |mem| == EEPROM_SIZE && addr < EEPROM_SIZE && i < |data| <= EEPROM_PAGE_SIZE
    ensures PageWrite(mem, addr, data)[Landing(addr, i)] == data[i]
  {
    hide Landing;
    var n := |data| - 1;
    if i < n {
      PageWriteAt(mem, addr, data[..n], i);
      LandsApart(addr, i, n);
      LandsInside(addr, i);
    }
    LandsInside(addr, n);
  }

  lemma {:induction false} PageWriteElsewhere(mem: seq<byte>, addr: nat, data: seq<byte>, t: nat)
    requires |mem| == EEPROM_SIZE && addr < EEPROM_SIZE && t < EEPROM_SIZE
    requires t / EEPROM_PAGE_SIZE != addr / EEPROM_PAGE_SIZE
    ensures PageWrite(mem, addr, data)[t] == mem[t]
  {
    if data != [] {
      PageWriteElsewhere(mem, addr, data[..|data| - 1], t);
    }
  }

  /** Turn `t` leaves its page. */
  predicate LeavesPage(addr: nat, number: nat, c: nat)
    requires addr < EEPROM_SIZE && c < number < EEPROM_SIZE
  {
    (addr + c) % EEPROM_PAGE_SIZE + Width(addr, number, c) > EEPROM_PAGE_SIZE
  }

  /** The turns up to `k` have not ended the loop. */
  predicate GoesOn(addr: nat, number: nat, k: nat)
    requires addr < EEPROM_SIZE && number < EEPROM_SIZE
  {
    At(addr, number, k) < number
  }

  /** From turn `m` on, the counter does not overflow before the last turn, `last`. */
  predicate Steady(addr: nat, number: nat, m: nat, last: nat)
    requires addr < EEPROM_SIZE && 1 <= number < EEPROM_SIZE
  {
    forall v: nat :: m <= v < last ==>
      GoesOn(addr, number, v) && At(addr, number, v + 1) == At(addr, number, v) + Step(addr)
  }

  /** Zeros but for a one at index `o`. */
  function OneAt(n: nat, o: nat): (data: seq<byte>)
    ensures |data| == n && forall i :: 0 <= i < n ==> data[i] == if i == o then 1 else 0
  {
    seq(n, i => if i == o then 1 else 0)
  }

  function Blank(): (mem: seq<byte>)
    ensures |mem| == EEPROM_SIZE && forall i :: 0 <= i < EEPROM_SIZE ==> mem[i] == 0
  {
    seq(EEPROM_SIZE, _ => 0)
  }

  /** The chip differs from what the block should make of it. */
  ghost predicate Spoils(addr: nat, number: nat, k: nat)
    requires addr < EEPROM_SIZE && 1 <= number < EEPROM_SIZE
  {
    exists mem, data :: ValidBlock(mem, addr, data, number)
      && Loop(mem, addr, data, number, k) != WrapSplice(mem, addr, data[..number])
  }

  /** The loop ends with turn `last`. */
  predicate LastTurn(addr: nat, number: nat, last: nat)
    requires addr < EEPROM_SIZE && 1 <= number < EEPROM_SIZE
  {
    GoesOn(addr, number, last) && !GoesOn(addr, number, last + 1)
  }

  lemma LastTurnEnds(addr: nat, number: nat, last: nat)
    requires addr < EEPROM_SIZE && 1 <= number < EEPROM_SIZE && LastTurn(addr, number, last)
    ensures
      var c := At(addr, number, last);
      c + Width(addr, number, c) == At(addr, number, last + 1) && number <= c + Width(addr, number, c) < 0x1_0000
  {
    hide Step;
    AtNext(addr, number, last, At(addr, number, last));
  }

  /** A last turn that writes more than the block spoils the chip: its last byte stays. */
  lemma OvershootSpoils(addr: nat, number: nat, last: nat)
    requires addr < EEPROM_SIZE && 1 <= number < EEPROM_SIZE && LastTurn(addr, number, last)
    requires At(addr, number, last + 1) > number
    ensures Spoils(addr, number, last + 1)
  {
    hide Width, Landing, PageWrite, At, WrapSplice, Step, OneAt, Blank;
    LastTurnEnds(addr, number, last);
    NeededAtLeast(addr, number, At(addr, number, last));
    var c := At(addr, number, last);
    var w, start := Width(addr, number, c), (addr + c) % 0x1_0000;
    var mem, data := Blank(), OneAt(Needed(addr, number), c + w - 1);
    PageWriteAt(Loop(mem, addr, data, number, last), start, data[c..c + w], w - 1);
    var q := Landing(start, w - 1);
    LandsInside(start, w - 1);
    BlockIsBlank(addr, number, q, c + w - 1);
  }

  lemma NeededAtLeast(addr: nat, number: nat, c: nat)
    requires addr < EEPROM_SIZE && c < number < EEPROM_SIZE
    ensures number <= Needed(addr, number) && c + Width(addr, number, c) <= Needed(addr, number)
  {
    hide Width, Step;
  }

  /** No block that is blank but for byte `o` shows anything elsewhere. */
  lemma BlockIsBlank(addr: nat, number: nat, q: nat, o: nat)
    requires addr < EEPROM_SIZE && number < EEPROM_SIZE && q < EEPROM_SIZE && number <= Needed(addr, number)
    requires o >= number || Offset(addr, q) != o
    ensures WrapSplice(Blank(), addr, OneAt(Needed(addr, number), o)[..number])[q] == 0
  {
    hide WrapSplice, Offset, Needed, OneAt, Blank;
  }

  lemma LandsInside(addr: nat, i: nat)
    requires addr < EEPROM_SIZE
    ensures Landing(addr, i) < EEPROM_SIZE && Landing(addr, i) / EEPROM_PAGE_SIZE == addr / EEPROM_PAGE_SIZE
  {}

  /** Later turns of the same round start on other pages. */
  predicate PageLeft(addr: nat, number: nat, t: nat, last: nat)
    requires addr < EEPROM_SIZE && 1 <= number < EEPROM_SIZE
  {
    forall v: nat :: t < v <= last ==>
      (addr + At(addr, number, v)) % EEPROM_SIZE / EEPROM_PAGE_SIZE !=
      (addr + At(addr, number, t)) % EEPROM_SIZE / EEPROM_PAGE_SIZE
  }

  lemma {:induction false} Untouched(mem: seq<byte>, addr: nat, data: seq<byte>, number: nat, t: nat, last: nat, q: nat)
    requires ValidBlock(mem, addr, data, number) && t <= last && q < EEPROM_SIZE
    requires 1 <= number && PageLeft(addr, number, t, last) && GoesOn(addr, number, last)
    requires q / EEPROM_PAGE_SIZE == (addr + At(addr, number, t)) % EEPROM_SIZE / EEPROM_PAGE_SIZE
    requires forall v: nat :: t <= v <= last ==> GoesOn(addr, number, v)
    ensures Loop(mem, addr, data, number, last + 1)[q] == Loop(mem, addr, data, number, t + 1)[q]
    decreases last
  {
    hide Width, PageWrite, At;
    if t < last {
      Untouched(mem, addr, data, number, t, last - 1, q);
      var c := At(addr, number, last);
      PageWriteElsewhere(Loop(mem, addr, data, number, last), (addr + c) % EEPROM_SIZE,
                         data[c..c + Width(addr, number, c)], q);
    }
  }

  /** A turn that leaves its page spoils the chip: the byte that comes back to the start of
      the page stays there. */
  lemma LeavingSpoils(addr: nat, number: nat, t: nat, last: nat)
    requires addr < EEPROM_SIZE && 1 <= number < EEPROM_SIZE && t <= last && PageLeft(addr, number, t, last)
    requires forall v: nat :: t <= v <= last ==> GoesOn(addr, number, v)
    requires GoesOn(addr, number, t) && LeavesPage(addr, number, At(addr, number, t))
    ensures Spoils(addr, number, last + 1)
  {
    hide Width, Landing, PageWrite, At, PageLeft, WrapSplice, Step, OneAt, Blank;
    var c := At(addr, number, t);
    NeededAtLeast(addr, number, c);
    var w, start := Width(addr, number, c), (addr + c) % EEPROM_SIZE;
    PageOffsetWraps(addr + c);
    var i := EEPROM_PAGE_SIZE - start % EEPROM_PAGE_SIZE;
    var mem, data := Blank(), OneAt(Needed(addr, number), c + i);
    BackToStart(start);
    var q := Landing(start, i);
    PageWriteAt(Loop(mem, addr, data, number, t), start, data[c..c + w], i);
    Untouched(mem, addr, data, number, t, last, q);
    assert Loop(mem, addr, data, number, last + 1)[q] == 1;
    NotItsPlace(addr, c, q, c + i);
    BlockIsBlank(addr, number, q, c + i);
  }

  lemma BackToStart(start: nat)
    requires start < EEPROM_SIZE
    ensures
      var q := Landing(start, EEPROM_PAGE_SIZE - start % EEPROM_PAGE_SIZE);
      q == start - start % EEPROM_PAGE_SIZE && q / EEPROM_PAGE_SIZE == start / EEPROM_PAGE_SIZE
  {}

  lemma NotItsPlace(addr: nat, c: nat, q: nat, o: nat)
    requires addr < EEPROM_SIZE && c < EEPROM_SIZE && q < EEPROM_SIZE
    requires q == (addr + c) % EEPROM_SIZE - (addr + c) % EEPROM_SIZE % EEPROM_PAGE_SIZE
    requires o == c + EEPROM_PAGE_SIZE - (addr + c) % EEPROM_SIZE % EEPROM_PAGE_SIZE
    ensures Offset(addr, q) != o
  {}

  /** The last round of the 16-bit counter: from turn `m` on it does not overflow. It started
      at 0, or just behind an overflow, for which the block must be very long. */
  lemma {:induction false} LastRound(addr: nat, number: nat, last: nat) returns (m: nat)
    requires addr < EEPROM_SIZE && 1 <= number < EEPROM_SIZE && GoesOn(addr, number, last)
    ensures m <= last && Steady(addr, number, m, last)
    ensures m == 0 || (At(addr, number, m) < EEPROM_PAGE_SIZE && number > EEPROM_SIZE - EEPROM_PAGE_SIZE)
    decreases last
  {
    hide Width, Step, At;
    if last == 0 {
      m := 0;
    } else {
      var c := At(addr, number, last - 1);
      AtNext(addr, number, last - 1, c);
      m := LastRound(addr, number, last - 1);
      if At(addr, number, last) != c + Step(addr) {
        m := last;
      }
    }
  }

  lemma SteadyGoesOn(addr: nat, number: nat, m: nat, last: nat, v: nat)
    requires addr < EEPROM_SIZE && 1 <= number < EEPROM_SIZE && Steady(addr, number, m, last)
    requires m <= v <= last && GoesOn(addr, number, last)
    ensures GoesOn(addr, number, v)
  {}

  lemma {:induction false} SteadyGrows(addr: nat, number: nat, m: nat, last: nat, t: nat, v: nat)
    requires addr < EEPROM_SIZE && 1 <= number < EEPROM_SIZE && Steady(addr, number, m, last)
    requires m <= t < v <= last
    ensures At(addr, number, t) + Step(addr) <= At(addr, number, v)
    decreases v
  {
    hide At, Step;
    assert GoesOn(addr, number, v - 1);
    if t < v - 1 {
      SteadyGrows(addr, number, m, last, t, v - 1);
    }
  }

  /** In a round without overflow, a turn that leaves its page is the last to start there. */
  lemma RoundLeaves(addr: nat, number: nat, m: nat, last: nat, t: nat)
    requires addr < EEPROM_SIZE && 1 <= number < EEPROM_SIZE && Steady(addr, number, m, last)
    requires m <= t <= last && GoesOn(addr, number, last) && GoesOn(addr, number, t)
    requires LeavesPage(addr, number, At(addr, number, t)) && At(addr, number, t) > EEPROM_PAGE_SIZE
    ensures PageLeft(addr, number, t, last)
  {
    hide At, Step, Width;
    var c := At(addr, number, t);
    forall v: nat | t < v <= last
      ensures
        (addr + At(addr, number, v)) % EEPROM_SIZE / EEPROM_PAGE_SIZE !=
        (addr + c) % EEPROM_SIZE / EEPROM_PAGE_SIZE
    {
      SteadyGrows(addr, number, m, last, t, v);
      SteadyGoesOn(addr, number, m, last, v);
      OtherPage(addr + c, addr + At(addr, number, v), Step(addr));
    }
  }

  lemma OtherPage(x: nat, y: nat, w: nat)
    requires x % EEPROM_PAGE_SIZE + w > EEPROM_PAGE_SIZE && x + w <= y < x + EEPROM_SIZE - EEPROM_PAGE_SIZE
    ensures y % EEPROM_SIZE / EEPROM_PAGE_SIZE != x % EEPROM_SIZE / EEPROM_PAGE_SIZE
  {
    PageOffsetWraps(x);
    PageOffsetWraps(y);
    var p, q := x / EEPROM_PAGE_SIZE, y / EEPROM_PAGE_SIZE;
    assert p < q < p + 512;
  }

  /** Steps that do not divide the page leave a page sooner or later. `started` says that the
      walk began at the start of this page. */
  lemma {:induction false} FindLeaving(addr: nat, number: nat, m: nat, last: nat, v: nat, started: bool)
    returns (t: nat)
    requires addr < EEPROM_SIZE && 1 <= number < EEPROM_SIZE && LastTurn(addr, number, last)
    requires Steady(addr, number, m, last) && m <= v <= last && EEPROM_PAGE_SIZE % Step(addr) != 0
    requires GoesOn(addr, number, v) && Walking(addr, number, At(addr, number, v), started)
    ensures m <= t <= last && GoesOn(addr, number, t) && LeavesPage(addr, number, At(addr, number, t))
    ensures At(addr, number, t) > EEPROM_PAGE_SIZE
    decreases last - v
  {
    hide At, Width, Step, Walking, LeavesPage;
    var c := At(addr, number, v);
    WalkOn(addr, number, c, started);
    if LeavesPage(addr, number, c) {
      t := v;
    } else {
      NotTheLast(addr, number, last, v, c);
      t := FindLeaving(addr, number, m, last, v + 1, started || (addr + c + Step(addr)) % EEPROM_PAGE_SIZE == 0);
    }
  }

  /** The walk is at byte `c`; a page that will be left is still inside the block. */
  predicate Walking(addr: nat, number: nat, c: nat, started: bool) {
    var p := (addr + c) % EEPROM_PAGE_SIZE;
    && (started ==> p % Step(addr) == 0)
    && c + EEPROM_PAGE_SIZE - p + (if started then 0 else EEPROM_PAGE_SIZE) < number
    && (c > EEPROM_PAGE_SIZE || c == p + Step(addr))
  }

  lemma WalkOn(addr: nat, number: nat, c: nat, started: bool)
    requires addr < EEPROM_SIZE && c < number < EEPROM_SIZE && EEPROM_PAGE_SIZE % Step(addr) != 0
    requires Walking(addr, number, c, started)
    ensures
      if LeavesPage(addr, number, c) then c > EEPROM_PAGE_SIZE
      else
        && c + Step(addr) < number
        && Walking(addr, number, c + Step(addr), started || (addr + c + Step(addr)) % EEPROM_PAGE_SIZE == 0)
  {
    hide Width, Step;
    var w, p := Step(addr), (addr + c) % EEPROM_PAGE_SIZE;
    if p + w <= EEPROM_PAGE_SIZE {
      NextOffset(addr, c, w);
      assert addr + (c + w) == addr + c + w;
      if p + w < EEPROM_PAGE_SIZE {
        NextMultipleOf(p, w, started);
      } else {
        PageNotReached(p, w);
      }
    }
  }

  lemma PageNotReached(p: nat, w: nat)
    requires 1 <= w && p + w == EEPROM_PAGE_SIZE && EEPROM_PAGE_SIZE % w != 0
    ensures p % w != 0
  {
    if p % w == 0 {
      NextMultipleOf(p, w, true);
    }
  }

  lemma NextMultipleOf(p: nat, w: nat, started: bool)
    requires 1 <= w && (started ==> p % w == 0)
    ensures started ==> (p + w) % w == 0
  {
    if started {
      assert p == p / w * w;
      assert p + w == (p / w + 1) * w;
      MultipleMod(p / w + 1, w);
    }
  }

  lemma NextOffset(addr: nat, c: nat, w: nat)
    requires (addr + c) % EEPROM_PAGE_SIZE + w <= EEPROM_PAGE_SIZE
    ensures (addr + c + w) % EEPROM_PAGE_SIZE ==
            if (addr + c) % EEPROM_PAGE_SIZE + w < EEPROM_PAGE_SIZE then (addr + c) % EEPROM_PAGE_SIZE + w else 0
  {}

  /** A turn that ends before the block does is not the last one. */
  lemma NotTheLast(addr: nat, number: nat, last: nat, v: nat, c: nat)
    requires addr < EEPROM_SIZE && 1 <= number < EEPROM_SIZE && LastTurn(addr, number, last)
    requires v <= last && GoesOn(addr, number, v) && c == At(addr, number, v) && c + Step(addr) < number
    ensures v < last
  {
    hide At, Step;
    if v == last {
      LastTurnEnds(addr, number, last);
    }
  }

  /** Behind an overflow, the counter comes past the first page of the block. */
  lemma {:induction false} FindLater(addr: nat, number: nat, m: nat, last: nat, v: nat) returns (u: nat)
    requires addr < EEPROM_SIZE && 1 <= number < EEPROM_SIZE && LastTurn(addr, number, last)
    requires Steady(addr, number, m, last) && m <= v <= last && GoesOn(addr, number, v)
    requires number > EEPROM_SIZE - EEPROM_PAGE_SIZE && At(addr, number, v) <= 2 * EEPROM_PAGE_SIZE
    ensures m <= u <= last && GoesOn(addr, number, u)
    ensures EEPROM_PAGE_SIZE < At(addr, number, u) <= 2 * EEPROM_PAGE_SIZE
    decreases last - v
  {
    hide At, Width;
    var c := At(addr, number, v);
    if c > EEPROM_PAGE_SIZE {
      u := v;
    } else {
      NotTheLast(addr, number, last, v, c);
      u := FindLater(addr, number, m, last, v + 1);
    }
  }

  /** Outside the page condition the chip is spoilt, if the loop ends at all. */
  lemma LongSpoils(addr: nat, number: nat, last: nat)
    requires addr < EEPROM_SIZE && 1 <= number < EEPROM_SIZE && LastTurn(addr, number, last)
    requires !CutsAtPages(addr, number)
    ensures Spoils(addr, number, last + 1)
  {
    hide At, Width, Step, CutsAtPages, Spoils, LeavesPage, PageLeft;
    var m, t := FindTurn(addr, number, last);
    RoundLeaves(addr, number, m, last, t);
    forall v: nat | t <= v <= last ensures GoesOn(addr, number, v) {
      SteadyGoesOn(addr, number, m, last, v);
    }
    LeavingSpoils(addr, number, t, last);
  }

  lemma FindTurn(addr: nat, number: nat, last: nat) returns (m: nat, t: nat)
    requires addr < EEPROM_SIZE && 1 <= number < EEPROM_SIZE && LastTurn(addr, number, last)
    requires !CutsAtPages(addr, number)
    ensures m <= t <= last && Steady(addr, number, m, last) && GoesOn(addr, number, t)
    ensures LeavesPage(addr, number, At(addr, number, t)) && At(addr, number, t) > EEPROM_PAGE_SIZE
  {
    hide At, Width, Step, CutsAtPages, Walking, LeavesPage;
    m := LastRound(addr, number, last);
    WalkStarts(addr, number);
    if m == 0 {
      FirstCounter(addr, number);
      NotTheLast(addr, number, last, 0, 0);
      assert GoesOn(addr, number, 0);
      t := FindLeaving(addr, number, 0, last, 1, true);
    } else {
      var u := FindLater(addr, number, m, last, m);
      WalkLater(addr, number, At(addr, number, u));
      t := FindLeaving(addr, number, m, last, u, false);
    }
  }

  lemma WalkStarts(addr: nat, number: nat)
    requires !CutsAtPages(addr, number)
    ensures EEPROM_PAGE_SIZE % Step(addr) != 0 && Step(addr) < number && Walking(addr, number, Step(addr), true)
  {
    PageOffset(addr, 0);
  }

  lemma WalkLater(addr: nat, number: nat, c: nat)
    requires number > EEPROM_SIZE - EEPROM_PAGE_SIZE && EEPROM_PAGE_SIZE < c <= 2 * EEPROM_PAGE_SIZE
    ensures Walking(addr, number, c, false)
  {}

  /** Behind the wrap, with turns that keep to their pages, the counter is a whole number of
      steps. */
  lemma DivisorTurn(addr: nat, number: nat, c: nat)
    requires addr < EEPROM_SIZE && c < number < EEPROM_SIZE && addr + number > EEPROM_SIZE
    requires CutsAtPages(addr, number) && c % Step(addr) == 0
    ensures Width(addr, number, c) == Step(addr)
    ensures (c + Step(addr)) % 0x1_0000 % Step(addr) == 0
  {
    hide Width;
    var w := Step(addr);
    var j := c / w;
    assert c == j * w;
    NextMultipleOf(c, w, true);
    if EEPROM_PAGE_SIZE % w == 0 {
      hide Step;
      WholeDivisor(addr, j, c);
      WholeStep(addr, number, c);
      OverflowMultiple(c + w, w);
    } else {
      ShortBlock(addr, number, c, j);
    }
  }

  lemma WholeDivisor(addr: nat, j: nat, c: nat)
    requires c == j * Step(addr) && EEPROM_PAGE_SIZE % Step(addr) == 0
    ensures (addr + c) % EEPROM_PAGE_SIZE + Step(addr) <= EEPROM_PAGE_SIZE
  {
    var w := Step(addr);
    if j > 0 {
      var p := (j - 1) * w;
      assert c == w + p;
      PageOffset(addr, p);
      MultipleFits(w, j - 1);
    }
  }

  lemma OverflowMultiple(n: nat, w: nat)
    requires 1 <= w <= EEPROM_PAGE_SIZE && EEPROM_PAGE_SIZE % w == 0 && n % w == 0 && n < 2 * EEPROM_SIZE
    ensures n % 0x1_0000 % w == 0
  {
    if n >= 0x1_0000 {
      var d, q := n / w, EEPROM_PAGE_SIZE / w;
      assert n == d * w && EEPROM_PAGE_SIZE == q * w;
      Regroup(d, 512, q, w);
      assert n - 0x1_0000 == (d - 512 * q) * w;
      if d < 512 * q {
        MulUp(d, 512 * q - d, w);
        Regroup(512 * q, 1, d, w);
      }
      MultipleMod(d - 512 * q, w);
    }
  }

  lemma ShortBlock(addr: nat, number: nat, c: nat, j: nat)
    requires addr < EEPROM_SIZE && c < number < EEPROM_SIZE && addr + number > EEPROM_SIZE
    requires addr % EEPROM_PAGE_SIZE + number <= 2 * EEPROM_PAGE_SIZE && c == j * Step(addr)
    ensures Width(addr, number, c) == Step(addr) && c + Step(addr) < EEPROM_SIZE
  {
    assert addr + Step(addr) == EEPROM_SIZE;
    if j >= 1 {
      MulUp(1, j - 1, Step(addr));
    }
  }

  lemma {:induction false} CounterIsWhole(addr: nat, number: nat, k: nat)
    requires addr < EEPROM_SIZE && 1 <= number < EEPROM_SIZE && addr + number > EEPROM_SIZE
    requires CutsAtPages(addr, number)
    ensures At(addr, number, k) % Step(addr) == 0
  {
    hide At, Width, Step, CutsAtPages;
    if k == 0 {
      FirstCounter(addr, number);
    } else {
      CounterIsWhole(addr, number, k - 1);
      var c := At(addr, number, k - 1);
      AtNext(addr, number, k - 1, c);
      if c < number {
        DivisorTurn(addr, number, c);
      }
    }
  }

  lemma {:induction false} FindLast(addr: nat, number: nat, k: nat) returns (last: nat)
    requires addr < EEPROM_SIZE && 1 <= number < EEPROM_SIZE && !GoesOn(addr, number, k)
    ensures last < k && LastTurn(addr, number, last)
    ensures forall mem, data :: ValidBlock(mem, addr, data, number) ==>
              Loop(mem, addr, data, number, k) == Loop(mem, addr, data, number, last + 1)
    decreases k
  {
    hide Width, PageWrite, Needed;
    if GoesOn(addr, number, k - 1) {
      last := k - 1;
    } else {
      last := FindLast(addr, number, k - 1);
    }
  }

  lemma {:induction false} EndsInTime(addr: nat, number: nat, k: nat)
    requires addr < EEPROM_SIZE && 1 <= number < EEPROM_SIZE && NoOverflow(addr, number)
    ensures At(addr, number, k) >= Min(k, number)
  {
    hide At, Width, Step;
    if k == 0 {
      FirstCounter(addr, number);
    } else {
      EndsInTime(addr, number, k - 1);
      AtNext(addr, number, k - 1, At(addr, number, k - 1));
    }
  }

  /** The 16-bit counter of the loop does not overflow. */
  predicate NoOverflow(addr: nat, number: nat) {
    addr + number <= EEPROM_SIZE || number + Step(addr) <= EEPROM_SIZE
  }

  /** For a block inside 64 KiB, no turn of the loop leaves its page exactly under the page
      condition. */
  lemma NoTurnLeavesIff(addr: nat, number: nat)
    requires 1 <= number < EEPROM_SIZE && addr + number <= EEPROM_SIZE
    ensures CutsAtPages(addr, number) <==>
            forall k: nat :: GoesOn(addr, number, k) ==> !LeavesPage(addr, number, At(addr, number, k))
  {
    hide CutsAtPages, At, Width, Step;
    if CutsAtPages(addr, number) {
      forall k: nat | GoesOn(addr, number, k) ensures !LeavesPage(addr, number, At(addr, number, k)) {
        AtIsCut(addr, number, k);
        TurnCuts(addr, number, k);
        PageOffsetWraps(addr + At(addr, number, k));
      }
    } else {
      EndsInTime(addr, number, number);
      var last := FindLast(addr, number, number);
      var m, t := FindTurn(addr, number, last);
    }
  }

  // ------------------------------------------------------------------ the condition

  /** After some number of turns the loop is at its end, and every block of this length stands
      where it should, and nothing else changed, whatever was in the chip before. */
  ghost predicate WritesExactly(addr: nat, number: nat)
    requires addr < EEPROM_SIZE && 1 <= number < EEPROM_SIZE
  {
    exists k: nat :: !GoesOn(addr, number, k) && !Spoils(addr, number, k)
  }

  /** The block write does that for exactly these arguments. */
  lemma WritesExactlyIff(addr: nat, number: nat)
    requires addr < EEPROM_SIZE && 1 <= number < EEPROM_SIZE
    ensures WritesExactly(addr, number) <==> Right(addr, number)
  {
    hide CutsAtPages, Width, Step, Spoils, Total;
    if Right(addr, number) {
      RightIsExact(addr, number);
    } else if WritesExactly(addr, number) {
      var k: nat :| !GoesOn(addr, number, k) && !Spoils(addr, number, k);
      var last := FindLast(addr, number, k);
      if CutsAtPages(addr, number) {
        CounterIsWhole(addr, number, last + 1);
        OvershootSpoils(addr, number, last);
      } else {
        LongSpoils(addr, number, last);
      }
      SameSpoils(addr, number, k, last + 1);
    }
  }

  lemma SameSpoils(addr: nat, number: nat, k: nat, l: nat)
    requires addr < EEPROM_SIZE && 1 <= number < EEPROM_SIZE && Spoils(addr, number, l)
    requires forall mem, data :: ValidBlock(mem, addr, data, number) ==>
               Loop(mem, addr, data, number, k) == Loop(mem, addr, data, number, l)
    ensures Spoils(addr, number, k)
  {}

  lemma TotalIsNumber(addr: nat, number: nat)
    requires number >= 1 && Right(addr, number)
    ensures Total(addr, number) == number
  {
    hide Step;
  }

  lemma RightIsExact(addr: nat, number: nat)
    requires addr < EEPROM_SIZE && 1 <= number < EEPROM_SIZE && Right(addr, number)
    ensures !GoesOn(addr, number, number) && !Spoils(addr, number, number)
  {
    hide CutsAtPages, Cut, Loop, WrapSplice, Needed, Step, Total, At, Width;
    TotalIsNumber(addr, number);
    TotalNeeded(addr, number);
    AllTurns(addr, number);
    AtIsCut(addr, number, number);
    forall mem, data | ValidBlock(mem, addr, data, number)
      ensures Loop(mem, addr, data, number, number) == WrapSplice(mem, addr, data[..number])
    {
      LoopIsSplice(mem, addr, data, number, number);
    }
  }

  lemma PageDivides(w: nat)
    requires 1 <= w && EEPROM_PAGE_SIZE % w == 0
    ensures EEPROM_SIZE % w == 0
  {
    var q := EEPROM_PAGE_SIZE / w;
    assert EEPROM_PAGE_SIZE == q * w;
    assert EEPROM_SIZE == 512 * q * w;
    MultipleMod(512 * q, w);
  }

  lemma TotalFits(addr: nat, number: nat)
    requires addr < EEPROM_SIZE && number < EEPROM_SIZE && NoOverflow(addr, number)
    ensures Total(addr, number) < EEPROM_SIZE
  {
    hide Step;
    if addr + number > EEPROM_SIZE && number + Step(addr) == EEPROM_SIZE {
      hide Total;
    }
  }

  /** Bytes, words and double words at any address. */
  lemma SmallBlock(addr: nat, number: nat)
    requires addr < EEPROM_SIZE && number in {2, 4}
    ensures NoOverflow(addr, number) && Needed(addr, number) <= (if number == 2 then 2 else 6)
    ensures CutsAtPages(addr, Total(addr, number))
    ensures Total(addr, number) == if number == 4 && addr == 0xfffd then 6 else number
  {
    if addr + number > EEPROM_SIZE {
      assert addr == 0xfffd || addr == 0xfffe || addr == 0xffff;
      assert Step(0xfffd) == 3 && Step(0xfffe) == 2 && Step(0xffff) == 1;
    }
  }

  lemma TurnWidth(addr: nat, number: nat, c: nat, current: nat, w: nat)
    requires addr < EEPROM_SIZE && c < number < EEPROM_SIZE && current == (addr + c) % 0x1_0000
    requires
      var step := EEPROM_PAGE_SIZE - addr % EEPROM_PAGE_SIZE;
      w == if current + step > addr + number then addr + number - current else step
    ensures w == Width(addr, number, c)
    ensures (current + w) % 0x1_0000 == (addr + (c + w) % 0x1_0000) % 0x1_0000
  {
    assert Step(addr) == EEPROM_PAGE_SIZE - addr % EEPROM_PAGE_SIZE;
    hide Step;
  }

  lemma StillGoing(addr: nat, number: nat, k: nat)
    requires addr < EEPROM_SIZE && number < EEPROM_SIZE
    ensures GoesOn(addr, number, k) <==> At(addr, number, k) < number
  {}

  lemma LoopStarts(mem: seq<byte>, addr: nat, data: seq<byte>, number: nat)
    requires ValidBlock(mem, addr, data, number)
    ensures Loop(mem, addr, data, number, 0) == mem
  {}

  lemma LoopNext(mem: seq<byte>, addr: nat, data: seq<byte>, number: nat, k: nat)
    requires ValidBlock(mem, addr, data, number) && GoesOn(addr, number, k)
    ensures
      var c := At(addr, number, k);
      && c + Width(addr, number, c) <= |data|
      && Loop(mem, addr, data, number, k + 1) ==
         PageWrite(Loop(mem, addr, data, number, k), (addr + c) % 0x1_0000, data[c..c + Width(addr, number, c)])
  {
    hide Width, Step, At;
    NeededAtLeast(addr, number, At(addr, number, k));
  }

  /** One turn of the loop, as it is written. */
  lemma TurnOf(mem: seq<byte>, addr: nat, data: seq<byte>, number: nat, k: nat, current: nat, w: nat)
    requires ValidBlock(mem, addr, data, number) && At(addr, number, k) < number
    requires current == (addr + At(addr, number, k)) % 0x1_0000
    requires
      var step := EEPROM_PAGE_SIZE - addr % EEPROM_PAGE_SIZE;
      w == if current + step > addr + number then addr + number - current else step
    ensures
      var c, next := At(addr, number, k), At(addr, number, k + 1);
      && 1 <= w <= EEPROM_PAGE_SIZE && c + w <= |data|
      && Loop(mem, addr, data, number, k + 1) == PageWrite(Loop(mem, addr, data, number, k), current, data[c..c + w])
      && next == (c + w) % 0x1_0000 && (current + w) % 0x1_0000 == (addr + next) % 0x1_0000
  {
    hide Loop, PageWrite, At, Width, Needed, Step;
    var c := At(addr, number, k);
    TurnWidth(addr, number, c, current, w);
    AtNext(addr, number, k, c);
    LoopNext(mem, addr, data, number, k);
  }

  /** Turns after the last one write nothing. */
  lemma {:induction false} LoopSettles(mem: seq<byte>, addr: nat, data: seq<byte>, number: nat, k: nat, n: nat)
    requires ValidBlock(mem, addr, data, number) && !GoesOn(addr, number, k) && k <= n
    ensures Loop(mem, addr, data, number, n) == Loop(mem, addr, data, number, k)
    ensures At(addr, number, n) == At(addr, number, k)
  {
    hide Width, Step, Needed;
    if k < n {
      LoopSettles(mem, addr, data, number, k, n - 1);
    }
  }

  /** However many turns are counted behind the end, the chip is the same. */
  lemma SameEnd(mem: seq<byte>, addr: nat, data: seq<byte>, number: nat, k: nat, l: nat)
    requires ValidBlock(mem, addr, data, number) && !GoesOn(addr, number, k) && !GoesOn(addr, number, l)
    ensures Loop(mem, addr, data, number, k) == Loop(mem, addr, data, number, l)
  {
    hide Loop, GoesOn;
    if k <= l {
      LoopSettles(mem, addr, data, number, k, l);
    } else {
      LoopSettles(mem, addr, data, number, l, k);
    }
  }
}
