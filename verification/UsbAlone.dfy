/** The main program of the driver between two interrupts: what its routines do when nothing
    disturbs them. */
module UsbAlone {
  import opened Bytes
  import opened UsbMachine
  import Crc16

  /** The main program alone, `n` steps with the same choice. */
  function Steps(s: State, c: Choice, n: nat): (r: State)
    requires s.Valid() && c.Valid()
    ensures r.Valid()
  {
    if n == 0 then s else Main(Steps(s, c, n - 1), c, false)
  }

  lemma {:induction false} StepsAdd(s: State, c: Choice, m: nat, n: nat)
    requires s.Valid() && c.Valid()
    ensures Steps(s, c, m + n) == Steps(Steps(s, c, m), c, n)
  {
    hide Main, State.Valid, Choice.Valid;
    if n > 0 {
      StepsAdd(s, c, m, n - 1);
    }
  }

  /** Some number of steps leads from `s` to `r`. */
  ghost predicate Reaches(s: State, c: Choice, r: State)
    requires s.Valid() && c.Valid()
  {
    exists n :: Steps(s, c, n) == r
  }

  lemma ReachesSelf(s: State, c: Choice)
    requires s.Valid() && c.Valid()
    ensures Reaches(s, c, s)
  {
    assert Steps(s, c, 0) == s;
  }

  lemma ReachesNext(s: State, c: Choice)
    requires s.Valid() && c.Valid()
    ensures Reaches(s, c, Main(s, c, false))
  {
    hide Main;
    assert Steps(s, c, 0) == s;
    assert Steps(s, c, 1) == Main(s, c, false);
  }

  lemma ReachesOn(s: State, c: Choice, t: State, r: State)
    requires s.Valid() && c.Valid() && t.Valid() && Reaches(s, c, t) && Reaches(t, c, r)
    ensures Reaches(s, c, r)
  {
    var m :| Steps(s, c, m) == t;
    var n :| Steps(t, c, n) == r;
    StepsAdd(s, c, m, n);
  }

  // --------------------------------------------------------- usbGenericSetInterrupt

  /** How many bytes the copying loop copies: at least one. */
  function Copied(size: nat): nat {
    if size == 0 then 1 else size
  }

  function FilledBuffer(buf: seq<byte>, pid: byte, src: seq<byte>, size: nat): (r: seq<byte>)
    requires |buf| == USB_BUFSIZE && ValidCall(src, size)
    ensures |r| == USB_BUFSIZE
    ensures r[..size + 3] == Frame(pid, src[..size])
  {
    var b := Splice(buf[0 := pid], 1, src[..Copied(size)]);
    assert b[1..1 + size] == src[..size];
    CrcCompletes(b, size);
    Splice(b, 1 + size, Crc16.Trailer(src[..size]))
  }

  /** A whole undisturbed call. */
  function SetInterrupt(s: State): (r: State)
    requires s.Valid() && s.pc.SiTest?
    ensures r.Valid()
  {
    var src, size := s.pc.src, s.pc.size;
    var pid := if IsHandshake(s.tx1.len) then Toggle(s.tx1.buf[0]) else s.tx1.buf[0];
    s.(tx1 := Tx(FilledBuffer(s.tx1.buf, pid, src, size), size + 4), pc := App,
       log := s.log.(loaded := s.log.loaded + [src[..size]],
                     late := s.log.late + if IsHandshake(s.tx1.len) then 0 else 1))
  }

  /** After `j` bytes of the copy. */
  function Copying(s: State, j: nat): State
    requires s.Valid() && s.pc.SiCopy? && j <= Copied(s.pc.size)
  {
    var src, size := s.pc.src, s.pc.size;
    s.(tx1 := s.tx1.(buf := Splice(s.tx1.buf, 1, src[..j])),
       pc := if j == 0 || j < size then SiCopy(src, size, j) else SiCrc(src, size))
  }

  lemma CopyNext(s: State, c: Choice, j: nat)
    requires s.Valid() && c.Valid() && s.pc.SiCopy? && j < Copied(s.pc.size)
    ensures Copying(s, j).Valid() && Main(Copying(s, j), c, false) == Copying(s, j + 1)
  {
    hide IsHandshake, Rx.Valid, Receive, Build;
    var src := s.pc.src;
    assert Splice(s.tx1.buf, 1, src[..j])[1 + j := src[j]] == Splice(s.tx1.buf, 1, src[..j + 1]);
  }

  lemma {:induction false} CopyAll(s: State, c: Choice, j: nat)
    requires s.Valid() && c.Valid() && s.pc.SiCopy? && s.pc.i == 0 && j <= Copied(s.pc.size)
    ensures Copying(s, j).Valid() && Reaches(s, c, Copying(s, j))
  {
    hide Main, Reaches;
    if j == 0 {
      ReachesSelf(s, c);
      assert Splice(s.tx1.buf, 1, s.pc.src[..0]) == s.tx1.buf;
    } else {
      CopyAll(s, c, j - 1);
      CopyNext(s, c, j - 1);
      ReachesNext(Copying(s, j - 1), c);
      ReachesOn(s, c, Copying(s, j - 1), Copying(s, j));
    }
  }

  /** The machine's steps of one undisturbed call. */
  lemma CallAlone(s: State, c: Choice)
    requires s.Valid() && c.Valid() && s.pc.SiTest?
    ensures Reaches(s, c, SetInterrupt(s))
  {
    hide Main, Reaches, Copying, SetInterrupt;
    var s1 := Main(s, c, false);
    var s2 := Main(s1, c, false);
    TwoSteps(s, c);
    ReachesNext(s, c);
    ReachesNext(s1, c);
    ReachesOn(s, c, s1, s2);
    var s3 := Copying(s2, Copied(s2.pc.size));
    CopyAll(s2, c, Copied(s2.pc.size));
    ReachesOn(s, c, s2, s3);
    var s4 := Main(s3, c, false);
    var s5 := Main(s4, c, false);
    ReachesNext(s3, c);
    ReachesNext(s4, c);
    ReachesOn(s, c, s3, s4);
    ReachesOn(s, c, s4, s5);
    LastSteps(s, c);
  }

  function Branched(s: State): (r: State)
    requires s.Valid() && s.pc.SiTest?
    ensures r.Valid()
  {
    var pc := SiCopy(s.pc.src, s.pc.size, 0);
    if IsHandshake(s.tx1.len) then s.(tx1 := s.tx1.(buf := s.tx1.buf[0 := Toggle(s.tx1.buf[0])]), pc := pc)
    else s.(tx1 := s.tx1.(len := NAK), pc := pc, log := s.log.(late := s.log.late + 1))
  }

  lemma TwoSteps(s: State, c: Choice)
    requires s.Valid() && c.Valid() && s.pc.SiTest?
    ensures Main(Main(s, c, false), c, false) == Branched(s)
  {
    hide Toggle, Rx.Valid, Receive, Build;
  }

  lemma LastSteps(s: State, c: Choice)
    requires s.Valid() && c.Valid() && s.pc.SiTest?
    ensures
      var t := Copying(Branched(s), Copied(s.pc.size));
      t.Valid() && Main(Main(t, c, false), c, false) == SetInterrupt(s)
  {
    hide Toggle, Rx.Valid, Receive, Build, IsHandshake, Crc16.Trailer, Frame;
    var src, size := s.pc.src, s.pc.size;
    var t := Copying(Branched(s), Copied(size));
    assert t.tx1.buf[1..1 + size] == src[..size];
    assert s.tx1.buf[0 := s.tx1.buf[0]] == s.tx1.buf;
  }

  // -------------------------------------------------------------- usbBuildTxBlock

  function BlockBuffer(buf: seq<byte>, pid: byte, chunk: seq<byte>): (r: seq<byte>)
    requires |buf| == USB_BUFSIZE && |chunk| <= 8
    ensures |r| == USB_BUFSIZE
    ensures r[..|chunk| + 3] == Frame(pid, chunk)
  {
    var b := Splice(buf[0 := pid], 1, chunk);
    assert b[1..1 + |chunk|] == chunk;
    CrcCompletes(b, |chunk|);
    Splice(b, 1 + |chunk|, Crc16.Trailer(chunk))
  }

  /** The second half of `usbPoll`, undisturbed. */
  function BuildBlock(s: State): (r: State)
    requires s.Valid() && s.pc.TxTest?
    ensures r.Valid()
  {
    if IsHandshake(s.tx0.len) && s.msg.Some? then
      var want := Min(|s.msg.value|, 8);
      s.(tx0 := Tx(BlockBuffer(s.tx0.buf, Toggle(s.tx0.buf[0]), s.msg.value[..want]), want + 4),
         msg := if want + 4 < 12 then None else Some(s.msg.value[want..]), pc := App)
    else s.(pc := App)
  }

  function ChunkCopying(s: State, j: nat): State
    requires s.Valid() && s.pc.TxCopy? && j <= |s.pc.chunk|
  {
    s.(tx0 := s.tx0.(buf := Splice(s.tx0.buf, 1, s.pc.chunk[..j])), pc := TxCopy(s.pc.chunk, j))
  }

  lemma ChunkNext(s: State, c: Choice, j: nat)
    requires s.Valid() && c.Valid() && s.pc.TxCopy? && j < |s.pc.chunk|
    ensures ChunkCopying(s, j).Valid() && Main(ChunkCopying(s, j), c, false) == ChunkCopying(s, j + 1)
  {
    hide IsHandshake, Rx.Valid, Receive, Send;
    var chunk := s.pc.chunk;
    assert Splice(s.tx0.buf, 1, chunk[..j])[1 + j := chunk[j]] == Splice(s.tx0.buf, 1, chunk[..j + 1]);
  }

  lemma {:induction false} ChunkAll(s: State, c: Choice, j: nat)
    requires s.Valid() && c.Valid() && s.pc.TxCopy? && s.pc.i == 0 && j <= |s.pc.chunk|
    ensures ChunkCopying(s, j).Valid() && Reaches(s, c, ChunkCopying(s, j))
  {
    hide Main, Reaches;
    if j == 0 {
      ReachesSelf(s, c);
      assert Splice(s.tx0.buf, 1, s.pc.chunk[..0]) == s.tx0.buf;
    } else {
      ChunkAll(s, c, j - 1);
      ChunkNext(s, c, j - 1);
      ReachesNext(ChunkCopying(s, j - 1), c);
      ReachesOn(s, c, ChunkCopying(s, j - 1), ChunkCopying(s, j));
    }
  }

  /** The first two steps, when there is something to send. */
  function Chosen(s: State): (r: State)
    requires s.Valid() && s.pc.TxTest? && IsHandshake(s.tx0.len) && s.msg.Some?
    ensures r.Valid()
  {
    var want := Min(|s.msg.value|, 8);
    s.(tx0 := s.tx0.(buf := s.tx0.buf[0 := Toggle(s.tx0.buf[0])]), msg := Some(s.msg.value[want..]),
       pc := TxCopy(s.msg.value[..want], 0))
  }

  lemma ChoosingSteps(s: State, c: Choice)
    requires s.Valid() && c.Valid() && s.pc.TxTest? && IsHandshake(s.tx0.len) && s.msg.Some?
    ensures Main(Main(s, c, false), c, false) == Chosen(s)
  {
    hide Toggle, Rx.Valid, Receive, Send;
  }

  lemma FinishingSteps(s: State, c: Choice)
    requires s.Valid() && c.Valid() && s.pc.TxTest? && IsHandshake(s.tx0.len) && s.msg.Some?
    ensures
      var t := ChunkCopying(Chosen(s), |Chosen(s).pc.chunk|);
      t.Valid() && Main(Main(Main(t, c, false), c, false), c, false) == BuildBlock(s)
  {
    hide Toggle, Rx.Valid, Receive, Send, IsHandshake, Crc16.Trailer, Frame;
    var chunk := Chosen(s).pc.chunk;
    var t := ChunkCopying(Chosen(s), |chunk|);
    assert chunk[..|chunk|] == chunk;
    assert t.tx0.buf[1..1 + |chunk|] == chunk;
  }

  lemma BuildAlone(s: State, c: Choice)
    requires s.Valid() && c.Valid() && s.pc.TxTest?
    ensures Reaches(s, c, BuildBlock(s))
  {
    hide Main, Reaches, ChunkCopying, BuildBlock;
    if IsHandshake(s.tx0.len) && s.msg.Some? {
      var s1 := Main(s, c, false);
      var s2 := Main(s1, c, false);
      ChoosingSteps(s, c);
      ReachesNext(s, c);
      ReachesNext(s1, c);
      ReachesOn(s, c, s1, s2);
      var s3 := ChunkCopying(s2, |s2.pc.chunk|);
      ChunkAll(s2, c, |s2.pc.chunk|);
      ReachesOn(s, c, s2, s3);
      var s4 := Main(s3, c, false);
      var s5 := Main(s4, c, false);
      var s6 := Main(s5, c, false);
      ReachesNext(s3, c);
      ReachesNext(s4, c);
      ReachesNext(s5, c);
      ReachesOn(s, c, s3, s4);
      ReachesOn(s, c, s4, s5);
      ReachesOn(s, c, s5, s6);
      FinishingSteps(s, c);
    } else {
      ReachesNext(s, c);
      NothingToBuild(s, c);
    }
  }

  lemma NothingToBuild(s: State, c: Choice)
    requires s.Valid() && c.Valid() && s.pc.TxTest? && !(IsHandshake(s.tx0.len) && s.msg.Some?)
    ensures Main(s, c, false) == BuildBlock(s)
  {
    hide Send, Receive;
  }

  // ---------------------------------------------------------------- usbProcessRx

  /** A packet is processed, undisturbed, and its buffer released. */
  function ProcessRx(s: State, c: Choice): (r: State)
    requires s.Valid() && c.Valid() && s.rx.len > 0
    ensures r.Valid()
  {
    var p := Packet(s.rx.token, s.rx.Stored());
    var s := s.(log := s.log.(processed := s.log.processed + [p]), pc := TxTest);
    var s := if IsSetup(p) then Replied(s.(tx0 := Tx(s.tx0.buf[0 := DATA0], NAK)), c) else s;
    s.(rx := s.rx.(len := 0))
  }

  /** A new reply is ready. */
  function Replied(s: State, c: Choice): (r: State)
    requires s.Valid() && c.Valid()
    ensures r.Valid()
  {
    var s := if c.reset then ResetToggling(s) else s;
    s.(msg := Some(c.reply), log := s.log.(replies := s.log.replies + [c.reply], count := 0))
  }

  /** `j` bytes read. */
  function ReadingSome(s: State, j: nat): State
    requires s.Valid() && s.pc.Reading? && s.pc.ptr + j <= |s.rx.buf|
  {
    s.(pc := Reading(s.pc.ptr, s.pc.n, s.rx.buf[s.pc.ptr..s.pc.ptr + j]))
  }

  lemma {:induction false} ReadAll(s: State, c: Choice, j: nat)
    requires s.Valid() && c.Valid() && s.pc.Reading? && s.pc.got == [] && j <= s.pc.n
    ensures ReadingSome(s, j).Valid() && Reaches(s, c, ReadingSome(s, j))
  {
    hide Main, Reaches;
    if j == 0 {
      ReachesSelf(s, c);
    } else {
      ReadAll(s, c, j - 1);
      ReadNext(s, c, j - 1);
      ReachesNext(ReadingSome(s, j - 1), c);
      ReachesOn(s, c, ReadingSome(s, j - 1), ReadingSome(s, j));
    }
  }

  lemma ReadNext(s: State, c: Choice, j: nat)
    requires s.Valid() && c.Valid() && s.pc.Reading? && j < s.pc.n
    ensures ReadingSome(s, j).Valid() && Main(ReadingSome(s, j), c, false) == ReadingSome(s, j + 1)
  {
    hide IsHandshake, Build, Send;
    var ptr := s.pc.ptr;
    assert s.rx.buf[ptr..ptr + j] + [s.rx.buf[ptr + j]] == s.rx.buf[ptr..ptr + j + 1];
  }

  /** Up to the first read: one step, or three for a SETUP. */
  function Entered(s: State): (r: State)
    requires s.Valid() && s.rx.len > 0
    ensures r.Valid() && r.pc.Reading?
  {
    var t := s.(pc := Reading(s.rx.Start(), s.rx.len - 3, []));
    if s.rx.token == PID_SETUP && s.rx.len == 11 then t.(tx0 := Tx(s.tx0.buf[0 := DATA0], NAK)) else t
  }

  lemma EnterAlone(s: State, c: Choice)
    requires s.Valid() && c.Valid() && s.rx.len > 0 && s.pc == Enter(s.rx.len - 3)
    ensures Reaches(s, c, Entered(s))
  {
    hide Main, Reaches, IsHandshake;
    ReachesNext(s, c);
    var s1 := Main(s, c, false);
    EnterSteps(s, c);
    if s.rx.token == PID_SETUP && s.rx.len == 11 {
      var s2 := Main(s1, c, false);
      ReachesNext(s1, c);
      ReachesNext(s2, c);
      ReachesOn(s, c, s1, s2);
      ReachesOn(s, c, s2, Main(s2, c, false));
    }
  }

  lemma EnterSteps(s: State, c: Choice)
    requires s.Valid() && c.Valid() && s.rx.len > 0 && s.pc == Enter(s.rx.len - 3)
    ensures
      if s.rx.token == PID_SETUP && s.rx.len == 11 then
        Main(Main(Main(s, c, false), c, false), c, false) == Entered(s)
      else Main(s, c, false) == Entered(s)
  {
    hide IsHandshake, Build, Send;
  }

  /** From the last read on. */
  lemma LeaveSteps(s: State, c: Choice)
    requires s.Valid() && c.Valid() && s.rx.len > 0 && s.pc == Enter(s.rx.len - 3)
    ensures
      var t := ReadingSome(Entered(s), s.rx.len - 3);
      t.Valid() && if s.rx.token == PID_SETUP && s.rx.len == 11 then
        Main(Main(Main(t, c, false), c, false), c, false) == ProcessRx(s, c)
      else Main(Main(t, c, false), c, false) == ProcessRx(s, c)
  {
    hide IsHandshake, Build, Send;
  }

  lemma ProcessAlone(s: State, c: Choice)
    requires s.Valid() && c.Valid() && s.rx.len > 0 && s.pc == Enter(s.rx.len - 3)
    ensures Reaches(s, c, ProcessRx(s, c))
  {
    hide Main, Reaches, ReadingSome, ProcessRx, IsHandshake;
    EnterAlone(s, c);
    var t := ReadingSome(Entered(s), s.rx.len - 3);
    ReadAll(Entered(s), c, s.rx.len - 3);
    ReachesOn(s, c, Entered(s), t);
    var t1 := Main(t, c, false);
    var t2 := Main(t1, c, false);
    ReachesNext(t, c);
    ReachesNext(t1, c);
    ReachesOn(s, c, t, t1);
    ReachesOn(s, c, t1, t2);
    LeaveSteps(s, c);
    if s.rx.token == PID_SETUP && s.rx.len == 11 {
      ReachesNext(t2, c);
      ReachesOn(s, c, t2, Main(t2, c, false));
    }
  }

  // --------------------------------------------------------------------- usbPoll

  function PollOnce(s: State, c: Choice): (r: State)
    requires s.Valid() && c.Valid() && s.pc == Poll
    ensures r.Valid()
  {
    BuildBlock(if s.rx.len > 0 then ProcessRx(s, c) else s.(pc := TxTest))
  }

  /** The machine's steps of one undisturbed `usbPoll`. */
  lemma PollAlone(s: State, c: Choice)
    requires s.Valid() && c.Valid() && s.pc == Poll
    ensures Reaches(s, c, PollOnce(s, c))
  {
    hide Main, Reaches, ProcessRx, BuildBlock;
    ReachesNext(s, c);
    FirstStep(s, c);
    if s.rx.len > 0 {
      var t := s.(pc := Enter(s.rx.len - 3));
      ProcessAlone(t, c);
      SameProcess(s, c);
      ReachesOn(s, c, t, ProcessRx(s, c));
      BuildAlone(ProcessRx(s, c), c);
      ReachesOn(s, c, ProcessRx(s, c), PollOnce(s, c));
    } else {
      BuildAlone(s.(pc := TxTest), c);
      ReachesOn(s, c, s.(pc := TxTest), PollOnce(s, c));
    }
  }

  lemma FirstStep(s: State, c: Choice)
    requires s.Valid() && c.Valid() && s.pc == Poll
    ensures Main(s, c, false) == s.(pc := if s.rx.len > 0 then Enter(s.rx.len - 3) else TxTest)
  {
    hide IsHandshake, Build, Send;
  }

  lemma SameProcess(s: State, c: Choice)
    requires s.Valid() && c.Valid() && s.pc == Poll && s.rx.len > 0
    ensures ProcessRx(s, c) == ProcessRx(s.(pc := Enter(s.rx.len - 3)), c)
    ensures ProcessRx(s, c).pc == TxTest
  {
    hide IsHandshake;
  }
}
