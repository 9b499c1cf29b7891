/** src/usbdata.c: the ring of outgoing packets. It stores pointers, not copies; what will
    be sent is read from the buffers only when a chunk is handed to the USB driver. */
module PacketRing {
  import opened Bytes
  import opened Transfer

  const BUFFER_SIZE := 100

  // ---------------------------------------------------------------- the queue

  /** A packet in the ring: a pointer and a length. */
  datatype Packet = Packet(data: array<byte>, length: nat)

  ghost predicate Fits(q: seq<Packet>) {
    forall i :: 0 <= i < |q| ==> q[i].length <= q[i].data.Length
  }

  /** What the packets' buffers hold now. */
  ghost function Payloads(q: seq<Packet>): (s: seq<seq<byte>>)
    requires Fits(q)
    reads set i | 0 <= i < |q| :: q[i].data
    ensures |s| == |q|
    ensures forall i :: 0 <= i < |q| ==> s[i] == q[i].data[..q[i].length]
  {
    if q == [] then [] else [q[0].data[..q[0].length]] + Payloads(q[1..])
  }

  // ------------------------------------------------------------------ the ring

  function Next(i: nat): (n: nat)
    requires i < BUFFER_SIZE
    ensures n < BUFFER_SIZE
  {
    if i + 1 >= BUFFER_SIZE then 0 else i + 1
  }

  /** Slots from `outIdx` up to, not including, `inIdx`, around the ring. */
  function Distance(outIdx: nat, inIdx: nat): (d: nat)
    requires outIdx < BUFFER_SIZE && inIdx < BUFFER_SIZE
    ensures d < BUFFER_SIZE
  {
    if outIdx <= inIdx then inIdx - outIdx else BUFFER_SIZE - outIdx + inIdx
  }

  /** The packets in those slots. */
  ghost function Between(packets: seq<array<byte>>, lengths: seq<nat>, outIdx: nat, inIdx: nat): (q: seq<Packet>)
    requires |packets| == |lengths| == BUFFER_SIZE && outIdx < BUFFER_SIZE && inIdx < BUFFER_SIZE
    ensures |q| == Distance(outIdx, inIdx)
    decreases Distance(outIdx, inIdx)
  {
    if outIdx == inIdx then []
    else [Packet(packets[outIdx], lengths[outIdx])] + Between(packets, lengths, Next(outIdx), inIdx)
  }

  /** Filling the free slot at `inIdx` adds its packet at the end, as long as a slot stays
      free. */
  lemma {:induction false} BetweenPush(packets: seq<array<byte>>, lengths: seq<nat>, outIdx: nat, inIdx: nat,
        data: array<byte>, length: nat)
    requires |packets| == |lengths| == BUFFER_SIZE && outIdx < BUFFER_SIZE && inIdx < BUFFER_SIZE
    requires Distance(outIdx, inIdx) < BUFFER_SIZE - 1
    ensures Between(packets[inIdx := data], lengths[inIdx := length], outIdx, Next(inIdx))
            == Between(packets, lengths, outIdx, inIdx) + [Packet(data, length)]
    decreases Distance(outIdx, inIdx)
  {
    if outIdx == inIdx {
      assert Between(packets[inIdx := data], lengths[inIdx := length], Next(inIdx), Next(inIdx)) == [];
    } else {
      BetweenPush(packets, lengths, Next(outIdx), inIdx, data, length);
    }
  }

  lemma BetweenPop(packets: seq<array<byte>>, lengths: seq<nat>, outIdx: nat, inIdx: nat)
    requires |packets| == |lengths| == BUFFER_SIZE && outIdx < BUFFER_SIZE && inIdx < BUFFER_SIZE
    requires outIdx != inIdx
    ensures
      var q := Between(packets, lengths, outIdx, inIdx);
      q != [] && q[0] == Packet(packets[outIdx], lengths[outIdx])
      && q[1..] == Between(packets, lengths, Next(outIdx), inIdx)
  {}

  lemma BetweenNone(packets: seq<array<byte>>, lengths: seq<nat>, outIdx: nat, inIdx: nat)
    requires |packets| == |lengths| == BUFFER_SIZE && outIdx < BUFFER_SIZE && inIdx < BUFFER_SIZE
    ensures outIdx == inIdx <==> Between(packets, lengths, outIdx, inIdx) == []
  {}

  /** The hundredth packet makes the indices meet: nothing at all is left to send. */
  lemma HundredthPacketEmptiesRing(packets: seq<array<byte>>, lengths: seq<nat>, outIdx: nat, inIdx: nat,
        data: array<byte>, length: nat)
    requires |packets| == |lengths| == BUFFER_SIZE && outIdx < BUFFER_SIZE && inIdx < BUFFER_SIZE
    requires Distance(outIdx, inIdx) == BUFFER_SIZE - 1
    ensures Between(packets[inIdx := data], lengths[inIdx := length], outIdx, Next(inIdx)) == []
  {}

  class Ring {
    const packets: array<array<byte>>
    const packetLength: array<nat>
    var indexIn: nat
    var indexOut: nat
    var duringSend: bool
    var indexDuringSend: nat

    ghost predicate Valid()
      reads this, packets, packetLength
    {
      && packets.Length == packetLength.Length == BUFFER_SIZE
      && indexIn < BUFFER_SIZE && indexOut < BUFFER_SIZE
      && Fits(Queue())
      && (forall i :: 0 <= i < |Queue()| ==> Separate(Queue()[i].data))
      && (duringSend ==> Queue() != [] && indexDuringSend <= Queue()[0].length)
    }

    /** A buffer is not one of the ring's own arrays. */
    ghost predicate Separate(data: array<byte>)
      reads this
    {
      data as object != packets && data as object != packetLength
    }

    /** The packets not yet sent to their end, oldest first. */
    ghost function Queue(): (q: seq<Packet>)
      requires packets.Length == packetLength.Length == BUFFER_SIZE
      requires indexIn < BUFFER_SIZE && indexOut < BUFFER_SIZE
      reads this, packets, packetLength
    {
      Between(packets[..], packetLength[..], indexOut, indexIn)
    }

    /** How much of the oldest packet is gone. */
    ghost function Done(): nat
      reads this
    {
      if duringSend then indexDuringSend else 0
    }

    /** Everything still to be sent, as the buffers are now. */
    ghost function Pending(): (c: seq<seq<byte>>)
      requires Valid()
      reads this, packets, packetLength, set i | 0 <= i < |Queue()| :: Queue()[i].data
    {
      Stream(Payloads(Queue()), Done())
    }

    constructor (spare: array<byte>)
      ensures Valid() && Queue() == [] && !duringSend && fresh(packets) && fresh(packetLength)
    {
      packets := new array<byte>[BUFFER_SIZE](_ => spare);
      packetLength := new nat[BUFFER_SIZE](_ => 0);
      indexIn, indexOut, duringSend, indexDuringSend := 0, 0, false, 0;
    }

    /** `usb_send_data`. The code never checks for a full ring; with at most 98 packets
        outstanding the new one is queued. */
    method SendData(data: array<byte>, length: nat)
      requires Valid() && |Queue()| < BUFFER_SIZE - 1
      requires length <= data.Length && Separate(data)
      modifies this`indexIn, packets, packetLength
      ensures Valid() && Queue() == old(Queue()) + [Packet(data, length)]
      ensures Done() == old(Done())
      ensures Pending() == old(Pending()) + Chunks(data[..length])
    {
      hide Between, Stream, Chunks, Payloads;
      ghost var ps, ls, q := packets[..], packetLength[..], Queue();
      BetweenPush(ps, ls, indexOut, indexIn, data, length);
      BetweenNone(ps, ls, indexOut, indexIn);
      StreamAppend(Payloads(q), Done(), data[..length]);
      packets[indexIn] := data;
      packetLength[indexIn] := length;
      assert packets[..] == ps[indexIn := data] && packetLength[..] == ls[indexIn := length];
      indexIn := indexIn + 1;
      if indexIn >= BUFFER_SIZE {
        indexIn := 0;
      }
      assert Queue() == q + [Packet(data, length)];
      assert Payloads(Queue()) == old(Payloads(q)) + [data[..length]];
    }

    /** `usb_send_next_data`: what is handed to `usbSetInterrupt`, if anything. */
    method SendNextData() returns (sent: Option<seq<byte>>)
      requires Valid()
      modifies this`indexOut, this`duringSend, this`indexDuringSend
      ensures Valid()
      ensures old(Pending()) == [] ==> sent == None && Pending() == []
      ensures old(Pending()) != [] ==> sent == Some(old(Pending())[0]) && Pending() == old(Pending())[1..]
      ensures old(Queue()) == [] ==> sent == None && Queue() == []
      ensures old(Queue()) != [] ==>
                var p, done := old(Queue()[0]), old(Done());
                if p.length - done > 8 then
                  sent == Some(p.data[done..done + 8]) && Queue() == old(Queue()) && Done() == done + 8
                else
                  sent == Some(p.data[done..p.length]) && Queue() == old(Queue())[1..] && Done() == 0
    {
      hide Between, Stream, Chunks, Payloads;
      sent := None;
      BetweenNone(packets[..], packetLength[..], indexOut, indexIn);
      if !duringSend {
        if indexIn != indexOut {
          BetweenPop(packets[..], packetLength[..], indexOut, indexIn);
          StreamHead(Payloads(Queue()), 0);
          duringSend := true;
          indexDuringSend := 0;
        } else {
          StreamNone(Payloads(Queue()), 0);
        }
      } else {
        StreamHead(Payloads(Queue()), indexDuringSend);
      }
      if duringSend {
        sent := SendChunk();
      }
    }

    /** The second half of `usb_send_next_data`. */
    method SendChunk() returns (sent: Option<seq<byte>>)
      requires Valid() && duringSend
      modifies this`indexOut, this`duringSend, this`indexDuringSend
      ensures Valid() && old(Pending()) != []
      ensures sent == Some(old(Pending())[0]) && Pending() == old(Pending())[1..]
      ensures
        var p, done := old(Queue()[0]), old(Done());
        if p.length - done > 8 then
          sent == Some(p.data[done..done + 8]) && Queue() == old(Queue()) && Done() == done + 8
        else
          sent == Some(p.data[done..p.length]) && Queue() == old(Queue())[1..] && Done() == 0
    {
      hide Between, Stream, Chunks, Payloads;
      ghost var ps, ls, q := packets[..], packetLength[..], Queue();
      ghost var s := Payloads(q);
      BetweenNone(ps, ls, indexOut, indexIn);
      BetweenPop(ps, ls, indexOut, indexIn);
      StreamHead(s, indexDuringSend);
      var data, length := packets[indexOut], packetLength[indexOut];
      if length - indexDuringSend > 8 {
        sent := Some(data[indexDuringSend..indexDuringSend + 8]);
        assert s[0][indexDuringSend..indexDuringSend + 8] == sent.value;
        indexDuringSend := indexDuringSend + 8;
        assert Payloads(Queue()) == s;
      } else {
        sent := Some(data[indexDuringSend..length]);
        assert s[0][indexDuringSend..] == sent.value;
        indexDuringSend := indexDuringSend + (length - indexDuringSend);
        duringSend := false;
        indexOut := indexOut + 1;
        if indexOut >= BUFFER_SIZE {
          indexOut := 0;
        }
        assert Queue() == q[1..];
        assert Payloads(Queue()) == s[1..];
      }
    }
  }
}
