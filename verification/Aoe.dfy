/** Constants and header fields of the ATA-over-Ethernet frames that the daemon handles
    (include/aoe.h, include/qaoed.h), and the byte order of the host it runs on. */
module Aoe {

  const HDR_LEN: nat := 24      // sizeof(struct aoe_hdr)
  const ATAHDR_LEN: nat := 36   // sizeof(struct aoe_atahdr)
  const CFGHDR_LEN: nat := 32   // sizeof(struct aoe_cfghdr)
  const ETH_P_AOE: nat := 0x88a2
  const ANY_SHELF: nat := 0xffff
  const ANY_SLOT: nat := 0xff

  datatype Endian = Little | Big

  type uint16 = x: nat | x < 0x1_0000

  function Swap16(x: uint16): (y: uint16)
  {
    (x % 256) * 256 + x / 256
  }

  /** What the host reads in a 16-bit field whose value in network order is `wire`. */
  function HostView(host: Endian, wire: uint16): uint16
  {
    match host
    case Little => Swap16(wire)
    case Big => wire
  }

  /** The header of one received frame, 16-bit fields in wire order. */
  datatype Frame = Frame(len: nat, proto: uint16, verFlags: bv8, shelf: uint16, slot: nat)

  /** The test `ver_flags & htons(AOE_FLAG_RSP)`: a byte against a mask that htons has
      moved to the upper byte on a little-endian host. */
  predicate MarkedResponse(host: Endian, f: Frame)
  {
    (f.verFlags as bv16) & (match host case Little => 0x0800 case Big => 0x0008) != 0
  }

  /** The three tests at the head of processpacket. */
  predicate Accepts(host: Endian, f: Frame)
  {
    f.len >= HDR_LEN && f.proto == ETH_P_AOE && !MarkedResponse(host, f)
  }

  /** The response filter works exactly on big-endian hosts: there it rejects the frames
      whose response bit is set; a little-endian host never rejects a frame for it. */
  lemma ResponseFilter(host: Endian, f: Frame)
    ensures MarkedResponse(host, f) <==> host == Big && f.verFlags & 0x08 != 0
  {
    var v := f.verFlags;
    assert (v as bv16) & 0x0800 == 0;
    assert (v as bv16) & 0x0008 == (v & 0x08) as bv16;
    assert v & 0x08 == 0 || v & 0x08 == 0x08;
  }

  predicate IsBroadcast(f: Frame)
  {
    f.shelf == ANY_SHELF && f.slot == ANY_SLOT
  }
}
