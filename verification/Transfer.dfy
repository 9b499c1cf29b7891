/** How a message crosses an 8-byte USB endpoint: cut into chunks, one per packet. */
module Transfer {
  import opened Bytes

  /** A message as the host receives it: pieces of eight bytes and a last one of at most
      eight. */
  function Chunks(s: seq<byte>): (c: seq<seq<byte>>)
    ensures c != []
    decreases |s|
  {
    if |s| > 8 then [s[..8]] + Chunks(s[8..]) else [s]
  }

  function Flatten(c: seq<seq<byte>>): seq<byte> {
    if c == [] then [] else c[0] + Flatten(c[1..])
  }

  /** The chunks concatenate to the message; there are ceil(len/8) of them, at least one,
      and every one but the last is full. */
  lemma {:induction false} ChunksOfMessage(s: seq<byte>)
    ensures Flatten(Chunks(s)) == s
    ensures |Chunks(s)| == if s == [] then 1 else (|s| + 7) / 8
    ensures forall i :: 0 <= i < |Chunks(s)| - 1 ==> |Chunks(s)[i]| == 8
    ensures |Chunks(s)[|Chunks(s)| - 1]| <= 8
    decreases |s|
  {
    if |s| > 8 {
      ChunksOfMessage(s[8..]);
    } else {
      assert Flatten([s]) == s + Flatten([]);
    }
  }

  /** The chunks still to come from the messages `s` when `done` bytes of the first one
      were sent. */
  function Stream(s: seq<seq<byte>>, done: nat): (c: seq<seq<byte>>)
    requires s != [] ==> done <= |s[0]|
  {
    if s == [] then [] else Chunks(s[0][done..]) + Stream(s[1..], 0)
  }

  lemma StreamNone(s: seq<seq<byte>>, done: nat)
    requires s == []
    ensures Stream(s, done) == []
  {}

  /** Queueing a message appends its chunks. */
  lemma {:induction false} StreamAppend(s: seq<seq<byte>>, done: nat, m: seq<byte>)
    requires if s == [] then done == 0 else done <= |s[0]|
    ensures Stream(s + [m], done) == Stream(s, done) + Chunks(m)
    decreases |s|
  {
    if s == [] {
      assert s + [m] == [m] && [m][1..] == [];
    } else {
      assert (s + [m])[1..] == s[1..] + [m];
      StreamAppend(s[1..], 0, m);
    }
  }

  /** Taking the next chunk from the first message. */
  lemma StreamHead(s: seq<seq<byte>>, done: nat)
    requires s != [] && done <= |s[0]|
    ensures Stream(s, done) != []
    ensures |s[0]| - done > 8 ==>
              Stream(s, done)[0] == s[0][done..done + 8] && Stream(s, done)[1..] == Stream(s, done + 8)
    ensures |s[0]| - done <= 8 ==>
              Stream(s, done)[0] == s[0][done..] && Stream(s, done)[1..] == Stream(s[1..], 0)
  {
    var rest := s[0][done..];
    if |rest| > 8 {
      assert rest[..8] == s[0][done..done + 8];
      assert rest[8..] == s[0][done + 8..];
    }
  }
}
