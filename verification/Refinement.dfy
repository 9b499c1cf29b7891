/** The program as it is written, in front of an obedient host: its pass through the main
    loop is a step of the runs of Runs, from power-up on. */
module Refinement {
  import opened Bytes
  import opened Bitmap
  import opened Device
  import opened Disk
  import opened System
  import opened Runs
  import F = Firmware
  import P = PacketRing

  /** The disk phase keeps the code inside its arrays. */
  lemma InvInBounds(s: System)
    requires Inv(s)
    ensures |s.dev.out.queue| < P.BUFFER_SIZE - 4
    ensures s.dev.wr.active ==> (s.dev.logicalBlock + s.dev.wr.page) % 0x100 < BLOCKS
  {}

  /** Power-up in front of an EEPROM that answers: globals cleared, RAM loaded. */
  method PowerOn(contents: seq<byte>) returns (firmware: F.Firmware, ok: bool)
    requires |contents| == RAM_SIZE
    ensures firmware.Valid() && fresh(firmware)
    ensures ok ==> firmware.State() == PowerUp(contents).dev && Inv(PowerUp(contents))
    ensures ok <==> firmware.chip.failed == 0
  {
    hide Inv, PowerUp, F.Firmware.Valid, F.Firmware.OutNow, F.Firmware.RingValid, F.Firmware.Distinct,
         F.Firmware.Statics;
    firmware := new F.Firmware(contents);
    ok := firmware.Boot();
    PowerUpParts(contents);
    PowerUpHolds(contents);
  }

  lemma PowerUpParts(contents: seq<byte>)
    requires |contents| == RAM_SIZE
    ensures PowerUp(contents).dev == Device(
              Store(contents, contents, Zeros(MAP_BYTES), -1, 0), Intake(false, false, Zeros(CBW_SIZE), 0),
              Writing(false, false, 0, 0, 0, 0), Reading(false, 0, 0, 0, 0),
              Outgoing([], 0, Zeros(DATA_LENGTH), Zeros(CSW_LENGTH)), Zeros(4), 0)
  {}

  /** One pass of the main loop. The host follows its rules; then the invariants of all runs
      go on holding of the fields, and what went to the driver is what the run sends. */
  method ObedientTurn(firmware: F.Firmware, packet: array<byte>, received: bool, len: nat, ready: bool, ghost s: System)
    returns (sent: seq<seq<byte>>, ghost input: Input)
    requires firmware.Valid() && firmware.State() == s.dev && Inv(s)
    requires packet.Length == 8 && packet != firmware.cbw && len <= 8
    requires received ==> MaySend(s.host, s.sent, Received(packet[..], len))
    modifies firmware, firmware.chip, firmware.ring, firmware.ring.packets, firmware.ring.packetLength
    modifies firmware.Statics()
    ensures firmware.Valid() && Legal(s, input)
    ensures Next(s, input).dev == firmware.State() && Next(s, input).sent == s.sent + sent
    ensures Inv(Next(s, input))
    ensures input.ready == ready && input.packet == if received then Some(Received(old(packet[..]), len)) else None
    ensures |sent| <= if ready then 1 else 0
    ensures input.busOk <==> firmware.chip.failed == old(firmware.chip.failed)
  {
    hide Inv, Turn, Take, MaySend;
    InvInBounds(s);
    InvFacts(s);
    var ret;
    sent, ret, input := firmware.MainTurn(packet, received, len, ready);
    TurnKeeps(s, input);
    OneLoadPerTurn(s, input);
  }
}
