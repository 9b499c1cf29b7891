/** The flush half of a turn: it copies behind the host's back, racing new packets, and only
    ever removes reasons for RAM and EEPROM to differ. */
module FlushSteps {
  import opened Bytes
  import opened Bitmap
  import opened Transfer
  import opened Device
  import opened Disk
  import opened System

  /** The number of the EEPROM page the next copy goes to. */
  function NextPage(s: Store): int {
    4 * s.writeBlock + s.page
  }

  /** Pages whose last write the bus refused. */
  function LostAfter(s: Store, lost: set<int>, busOk: bool): set<int> {
    if s.writeBlock < 0 then lost
    else if busOk then lost - {NextPage(s)}
    else lost + {NextPage(s)}
  }

  lemma PageOfByte(a: nat)
    ensures a / PAGE_SIZE == 4 * (a / BLOCK_SIZE) + a % BLOCK_SIZE / PAGE_SIZE
    ensures a % BLOCK_SIZE / PAGE_SIZE < 4
  {}

  lemma PickKeeps(d: Device, lost: set<int>, busOk: bool)
    requires d.Valid() && Coherent(d, lost) && d.store.writeBlock < 0
    ensures Coherent(d.(store := Flush(d.store, busOk)), LostAfter(d.store, lost, busOk))
  {
    var b := FirstDirty(d.store.dirty, 0);
    FirstDirtyIsLowest(d.store.dirty, 0);
    if b >= 0 {
      var d' := d.(store := Flush(d.store, busOk));
      forall a: nat | a < RAM_SIZE ensures d'.store.ram[a] == d'.store.eeprom[a] || Excused(d', lost, a) {
        ClearOne(d.store.dirty, b, a / BLOCK_SIZE);
      }
    }
  }

  lemma CopyKeeps(d: Device, lost: set<int>, busOk: bool)
    requires d.Valid() && Coherent(d, lost) && d.store.writeBlock >= 0
    ensures Coherent(d.(store := Flush(d.store, busOk)), LostAfter(d.store, lost, busOk))
  {
    hide IsDirty;
    var d', lost' := d.(store := Flush(d.store, busOk)), LostAfter(d.store, lost, busOk);
    forall a: nat | a < RAM_SIZE ensures d'.store.ram[a] == d'.store.eeprom[a] || Excused(d', lost', a) {
      PageOfByte(a);
      var at := BLOCK_SIZE * d.store.writeBlock + d.store.page * PAGE_SIZE;
      assert a / PAGE_SIZE == NextPage(d.store) <==> at <= a < at + PAGE_SIZE;
    }
  }

  lemma FlushMissesRam(s: Store, busOk: bool)
    requires s.Valid()
    ensures Flush(s, busOk).ram == s.ram
  {}

  lemma FlushKeeps(s: System, busOk: bool)
    requires Inv(s)
    ensures Inv(s.(dev := s.dev.(store := Flush(s.dev.store, busOk)), lost := LostAfter(s.dev.store, s.lost, busOk)))
  {
    hide Coherent, Flush, LostAfter, Stream, Chunks, Splice, Disk.Valid;
    FlushMissesRam(s.dev.store, busOk);
    if s.dev.store.writeBlock < 0 {
      PickKeeps(s.dev, s.lost, busOk);
    } else {
      CopyKeeps(s.dev, s.lost, busOk);
    }
  }
}
