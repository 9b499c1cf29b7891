/** A command block arrives in packets of the host's choosing: whatever the split, it is put
    together as sent. */
module CbwIntake {
  import opened Bytes
  import opened Device

  predicate AllValid(ps: seq<Received>) {
    forall k :: 0 <= k < |ps| ==> ps[k].Valid()
  }

  function Gather(i: Intake, ps: seq<Received>): (r: Intake)
    requires i.Valid() && AllValid(ps)
    ensures r.Valid()
    decreases |ps|
  {
    if ps == [] then i else TakeCommand(Gather(i, ps[..|ps| - 1]), ps[|ps| - 1])
  }

  function Joined(ps: seq<Received>): seq<byte>
    requires AllValid(ps)
    decreases |ps|
  {
    if ps == [] then [] else Joined(ps[..|ps| - 1]) + ps[|ps| - 1].Bytes()
  }

  /** A command block in pieces: the first is recognised by its signature, and the last one
      is needed. */
  predicate IsSplit(ps: seq<Received>) {
    && ps != [] && AllValid(ps)
    && ps[0].data[..4] == CBW_SIGNATURE
    && |Joined(ps[..|ps| - 1])| < CBW_SIZE
  }

  lemma Shorter(ps: seq<Received>)
    requires IsSplit(ps) && |ps| > 1
    ensures IsSplit(ps[..|ps| - 1])
  {
    var fewer := ps[..|ps| - 1];
    assert Joined(fewer) == Joined(fewer[..|fewer| - 1]) + fewer[|fewer| - 1].Bytes();
  }

  /** Before byte 31 the block grows packet by packet and is not finished; with the packet
      that brings byte 31 it is finished and equals the first 31 bytes sent. */
  lemma {:induction false} CommandGathered(i: Intake, ps: seq<Received>)
    requires i.Valid() && !i.progress && !i.finished && IsSplit(ps)
    ensures
      var r, sent := Gather(i, ps), Joined(ps);
      if |sent| < CBW_SIZE then
        r.progress && !r.finished && r.index == |sent| && r.cbw[..|sent|] == sent
      else
        !r.progress && r.finished && r.cbw == sent[..CBW_SIZE] && r.index == CBW_SIZE
    decreases |ps|
  {
    hide Splice;
    var fewer, p := ps[..|ps| - 1], ps[|ps| - 1];
    if |ps| == 1 {
      assert fewer == [] && Gather(i, fewer) == i;
      SpliceAtEnd(i.cbw, [], p.Bytes());
      assert [] + p.Bytes() == p.Bytes();
      assert Joined(ps) == [] + p.Bytes();
    } else {
      Shorter(ps);
      CommandGathered(i, fewer);
      var before, sent := Gather(i, fewer), Joined(fewer);
      assert |sent| < CBW_SIZE && p.Valid();
      var take := Min(|sent| + p.len, CBW_SIZE) - |sent|;
      SpliceAtEnd(before.cbw, sent, p.data[..take]);
      assert p.Bytes()[..take] == p.data[..take];
      assert |sent| + p.len >= CBW_SIZE ==> (sent + p.Bytes())[..CBW_SIZE] == sent + p.data[..take];
    }
  }

  lemma SpliceAtEnd(mem: seq<byte>, before: seq<byte>, data: seq<byte>)
    requires |before| + |data| <= |mem| && mem[..|before|] == before
    ensures Splice(mem, |before|, data)[..|before| + |data|] == before + data
    ensures |before| + |data| == |mem| ==> Splice(mem, |before|, data) == before + data
  {}
}
