/** CRC-32 as `crc32fast::Hasher` computes it: the reflected CRC of ISO 3309
    / ITU-T V.42 with polynomial 0xEDB88320, initial value 0xFFFFFFFF and a
    final complement, written bit by bit. */
module Crc32 {

  /** One bit of the reflected shift register. */
  function ShiftBit(c: bv32): bv32 {
    if c & 1 == 1 then (c >> 1) ^ 0xEDB8_8320 else c >> 1
  }

  /** Eight shifts of the register. */
  function Shift8(c: bv32): bv32 {
    ShiftBit(ShiftBit(ShiftBit(ShiftBit(ShiftBit(ShiftBit(ShiftBit(ShiftBit(c))))))))
  }

  /** One byte fed into the register, low bit first. */
  function UpdateByte(c: bv32, b: bv8): bv32 {
    Shift8(c ^ (b as bv32))
  }

  /** `Hasher::update` over a byte sequence, from register state `c`. */
  function Update(c: bv32, bytes: seq<bv8>): bv32
    decreases |bytes|
  {
    if |bytes| == 0 then c else Update(UpdateByte(c, bytes[0]), bytes[1..])
  }

  /** `Hasher::new()`, `update`, `finalize()`: the register starts at
      0xFFFFFFFF and is complemented at the end, so no bytes hash to 0. */
  function Checksum(bytes: seq<bv8>): (r: bv32)
    ensures bytes == [] ==> r == 0
  {
    Update(0xFFFF_FFFF, bytes) ^ 0xFFFF_FFFF
  }

  /** Hashing in pieces is hashing the whole: what lets the checksum be
      computed level by level. */
  lemma {:induction false} UpdateAppend(c: bv32, a: seq<bv8>, b: seq<bv8>)
    ensures Update(c, a + b) == Update(Update(c, a), b)
    decreases |a|
  {
    if |a| > 0 {
      assert (a + b)[0] == a[0];
      assert (a + b)[1..] == a[1..] + b;
      UpdateAppend(UpdateByte(c, a[0]), a[1..], b);
    } else {
      assert a + b == b;
    }
  }

  /** The standard check value of this CRC: "123456789" hashes to
      0xCBF43926. */
  lemma CheckValue()
    ensures Checksum([0x31, 0x32, 0x33, 0x34, 0x35, 0x36, 0x37, 0x38, 0x39]) == 0xCBF4_3926
  {
    assert UpdateByte(0xFFFF_FFFF, 0x31) == 0x7C23_1048;
    assert UpdateByte(0x7C23_1048, 0x32) == 0xB0AC_BB32;
    assert UpdateByte(0xB0AC_BB32, 0x33) == 0x77B7_9C2D;
    assert UpdateByte(0x77B7_9C2D, 0x34) == 0x641C_1F5C;
    assert UpdateByte(0x641C_1F5C, 0x35) == 0x340A_C5E3;
    assert UpdateByte(0x340A_C5E3, 0x36) == 0xF68D_2C9E;
    assert UpdateByte(0xF68D_2C9E, 0x37) == 0xAFFC_9660;
    assert UpdateByte(0xAFFC_9660, 0x38) == 0x651F_2550;
    assert UpdateByte(0x651F_2550, 0x39) == 0x340B_C6D9;
  }
}
