/** The CRC of image files (mkimage/crc32.c): the byte table, and what one entry is. */
module CrcTable {
  const ROW_0: seq<bv32> := [
    0x00000000, 0x77073096, 0xee0e612c, 0x990951ba, 0x076dc419, 0x706af48f, 0xe963a535, 0x9e6495a3,
    0x0edb8832, 0x79dcb8a4, 0xe0d5e91e, 0x97d2d988, 0x09b64c2b, 0x7eb17cbd, 0xe7b82d07, 0x90bf1d91]

  const ROW_1: seq<bv32> := [
    0x1db71064, 0x6ab020f2, 0xf3b97148, 0x84be41de, 0x1adad47d, 0x6ddde4eb, 0xf4d4b551, 0x83d385c7,
    0x136c9856, 0x646ba8c0, 0xfd62f97a, 0x8a65c9ec, 0x14015c4f, 0x63066cd9, 0xfa0f3d63, 0x8d080df5]

  const ROW_2: seq<bv32> := [
    0x3b6e20c8, 0x4c69105e, 0xd56041e4, 0xa2677172, 0x3c03e4d1, 0x4b04d447, 0xd20d85fd, 0xa50ab56b,
    0x35b5a8fa, 0x42b2986c, 0xdbbbc9d6, 0xacbcf940, 0x32d86ce3, 0x45df5c75, 0xdcd60dcf, 0xabd13d59]

  const ROW_3: seq<bv32> := [
    0x26d930ac, 0x51de003a, 0xc8d75180, 0xbfd06116, 0x21b4f4b5, 0x56b3c423, 0xcfba9599, 0xb8bda50f,
    0x2802b89e, 0x5f058808, 0xc60cd9b2, 0xb10be924, 0x2f6f7c87, 0x58684c11, 0xc1611dab, 0xb6662d3d]

  const ROW_4: seq<bv32> := [
    0x76dc4190, 0x01db7106, 0x98d220bc, 0xefd5102a, 0x71b18589, 0x06b6b51f, 0x9fbfe4a5, 0xe8b8d433,
    0x7807c9a2, 0x0f00f934, 0x9609a88e, 0xe10e9818, 0x7f6a0dbb, 0x086d3d2d, 0x91646c97, 0xe6635c01]

  const ROW_5: seq<bv32> := [
    0x6b6b51f4, 0x1c6c6162, 0x856530d8, 0xf262004e, 0x6c0695ed, 0x1b01a57b, 0x8208f4c1, 0xf50fc457,
    0x65b0d9c6, 0x12b7e950, 0x8bbeb8ea, 0xfcb9887c, 0x62dd1ddf, 0x15da2d49, 0x8cd37cf3, 0xfbd44c65]

  const ROW_6: seq<bv32> := [
    0x4db26158, 0x3ab551ce, 0xa3bc0074, 0xd4bb30e2, 0x4adfa541, 0x3dd895d7, 0xa4d1c46d, 0xd3d6f4fb,
    0x4369e96a, 0x346ed9fc, 0xad678846, 0xda60b8d0, 0x44042d73, 0x33031de5, 0xaa0a4c5f, 0xdd0d7cc9]

  const ROW_7: seq<bv32> := [
    0x5005713c, 0x270241aa, 0xbe0b1010, 0xc90c2086, 0x5768b525, 0x206f85b3, 0xb966d409, 0xce61e49f,
    0x5edef90e, 0x29d9c998, 0xb0d09822, 0xc7d7a8b4, 0x59b33d17, 0x2eb40d81, 0xb7bd5c3b, 0xc0ba6cad]

  const ROW_8: seq<bv32> := [
    0xedb88320, 0x9abfb3b6, 0x03b6e20c, 0x74b1d29a, 0xead54739, 0x9dd277af, 0x04db2615, 0x73dc1683,
    0xe3630b12, 0x94643b84, 0x0d6d6a3e, 0x7a6a5aa8, 0xe40ecf0b, 0x9309ff9d, 0x0a00ae27, 0x7d079eb1]

  const ROW_9: seq<bv32> := [
    0xf00f9344, 0x8708a3d2, 0x1e01f268, 0x6906c2fe, 0xf762575d, 0x806567cb, 0x196c3671, 0x6e6b06e7,
    0xfed41b76, 0x89d32be0, 0x10da7a5a, 0x67dd4acc, 0xf9b9df6f, 0x8ebeeff9, 0x17b7be43, 0x60b08ed5]

  const ROW_A: seq<bv32> := [
    0xd6d6a3e8, 0xa1d1937e, 0x38d8c2c4, 0x4fdff252, 0xd1bb67f1, 0xa6bc5767, 0x3fb506dd, 0x48b2364b,
    0xd80d2bda, 0xaf0a1b4c, 0x36034af6, 0x41047a60, 0xdf60efc3, 0xa867df55, 0x316e8eef, 0x4669be79]

  const ROW_B: seq<bv32> := [
    0xcb61b38c, 0xbc66831a, 0x256fd2a0, 0x5268e236, 0xcc0c7795, 0xbb0b4703, 0x220216b9, 0x5505262f,
    0xc5ba3bbe, 0xb2bd0b28, 0x2bb45a92, 0x5cb36a04, 0xc2d7ffa7, 0xb5d0cf31, 0x2cd99e8b, 0x5bdeae1d]

  const ROW_C: seq<bv32> := [
    0x9b64c2b0, 0xec63f226, 0x756aa39c, 0x026d930a, 0x9c0906a9, 0xeb0e363f, 0x72076785, 0x05005713,
    0x95bf4a82, 0xe2b87a14, 0x7bb12bae, 0x0cb61b38, 0x92d28e9b, 0xe5d5be0d, 0x7cdcefb7, 0x0bdbdf21]

  const ROW_D: seq<bv32> := [
    0x86d3d2d4, 0xf1d4e242, 0x68ddb3f8, 0x1fda836e, 0x81be16cd, 0xf6b9265b, 0x6fb077e1, 0x18b74777,
    0x88085ae6, 0xff0f6a70, 0x66063bca, 0x11010b5c, 0x8f659eff, 0xf862ae69, 0x616bffd3, 0x166ccf45]

  const ROW_E: seq<bv32> := [
    0xa00ae278, 0xd70dd2ee, 0x4e048354, 0x3903b3c2, 0xa7672661, 0xd06016f7, 0x4969474d, 0x3e6e77db,
    0xaed16a4a, 0xd9d65adc, 0x40df0b66, 0x37d83bf0, 0xa9bcae53, 0xdebb9ec5, 0x47b2cf7f, 0x30b5ffe9]

  const ROW_F: seq<bv32> := [
    0xbdbdf21c, 0xcabac28a, 0x53b39330, 0x24b4a3a6, 0xbad03605, 0xcdd70693, 0x54de5729, 0x23d967bf,
    0xb3667a2e, 0xc4614ab8, 0x5d681b02, 0x2a6f2b94, 0xb40bbe37, 0xc30c8ea1, 0x5a05df1b, 0x2d02ef8d]

  /** crc32_tab. */
  const TABLE: seq<bv32> :=
    ROW_0 + ROW_1 + ROW_2 + ROW_3 +
    ROW_4 + ROW_5 + ROW_6 + ROW_7 +
    ROW_8 + ROW_9 + ROW_A + ROW_B +
    ROW_C + ROW_D + ROW_E + ROW_F

  /** One step of the register, least significant bit first: multiply by x modulo the polynomial. */
  function Bit(s: bv32): bv32 { if s & 1 == 1 then (s >> 1) ^ 0xEDB88320 else s >> 1 }

  function Bit8(s: bv32): bv32 { Bit(Bit(Bit(Bit(Bit(Bit(Bit(Bit(s)))))))) }

  lemma TableSize()
    ensures |TABLE| == 256
  {
  }

  lemma Row0(i: bv8)
    requires i >> 4 == 0x0
    ensures |TABLE| == 256 && TABLE[i as int] == Bit8(i as bv32)
  {
    TableSize();
    assert i == 0x00 || i == 0x01 || i == 0x02 || i == 0x03 || i == 0x04 || i == 0x05 || i == 0x06 || i == 0x07 || i == 0x08 || i == 0x09 || i == 0x0A || i == 0x0B || i == 0x0C || i == 0x0D || i == 0x0E || i == 0x0F;
  }

  lemma Row1(i: bv8)
    requires i >> 4 == 0x1
    ensures |TABLE| == 256 && TABLE[i as int] == Bit8(i as bv32)
  {
    TableSize();
    assert i == 0x10 || i == 0x11 || i == 0x12 || i == 0x13 || i == 0x14 || i == 0x15 || i == 0x16 || i == 0x17 || i == 0x18 || i == 0x19 || i == 0x1A || i == 0x1B || i == 0x1C || i == 0x1D || i == 0x1E || i == 0x1F;
  }

  lemma Row2(i: bv8)
    requires i >> 4 == 0x2
    ensures |TABLE| == 256 && TABLE[i as int] == Bit8(i as bv32)
  {
    TableSize();
    assert i == 0x20 || i == 0x21 || i == 0x22 || i == 0x23 || i == 0x24 || i == 0x25 || i == 0x26 || i == 0x27 || i == 0x28 || i == 0x29 || i == 0x2A || i == 0x2B || i == 0x2C || i == 0x2D || i == 0x2E || i == 0x2F;
  }

  lemma Row3(i: bv8)
    requires i >> 4 == 0x3
    ensures |TABLE| == 256 && TABLE[i as int] == Bit8(i as bv32)
  {
    TableSize();
    assert i == 0x30 || i == 0x31 || i == 0x32 || i == 0x33 || i == 0x34 || i == 0x35 || i == 0x36 || i == 0x37 || i == 0x38 || i == 0x39 || i == 0x3A || i == 0x3B || i == 0x3C || i == 0x3D || i == 0x3E || i == 0x3F;
  }

  lemma Row4(i: bv8)
    requires i >> 4 == 0x4
    ensures |TABLE| == 256 && TABLE[i as int] == Bit8(i as bv32)
  {
    TableSize();
    assert i == 0x40 || i == 0x41 || i == 0x42 || i == 0x43 || i == 0x44 || i == 0x45 || i == 0x46 || i == 0x47 || i == 0x48 || i == 0x49 || i == 0x4A || i == 0x4B || i == 0x4C || i == 0x4D || i == 0x4E || i == 0x4F;
  }

  lemma Row5(i: bv8)
    requires i >> 4 == 0x5
    ensures |TABLE| == 256 && TABLE[i as int] == Bit8(i as bv32)
  {
    TableSize();
    assert i == 0x50 || i == 0x51 || i == 0x52 || i == 0x53 || i == 0x54 || i == 0x55 || i == 0x56 || i == 0x57 || i == 0x58 || i == 0x59 || i == 0x5A || i == 0x5B || i == 0x5C || i == 0x5D || i == 0x5E || i == 0x5F;
  }

  lemma Row6(i: bv8)
    requires i >> 4 == 0x6
    ensures |TABLE| == 256 && TABLE[i as int] == Bit8(i as bv32)
  {
    TableSize();
    assert i == 0x60 || i == 0x61 || i == 0x62 || i == 0x63 || i == 0x64 || i == 0x65 || i == 0x66 || i == 0x67 || i == 0x68 || i == 0x69 || i == 0x6A || i == 0x6B || i == 0x6C || i == 0x6D || i == 0x6E || i == 0x6F;
  }

  lemma Row7(i: bv8)
    requires i >> 4 == 0x7
    ensures |TABLE| == 256 && TABLE[i as int] == Bit8(i as bv32)
  {
    TableSize();
    assert i == 0x70 || i == 0x71 || i == 0x72 || i == 0x73 || i == 0x74 || i == 0x75 || i == 0x76 || i == 0x77 || i == 0x78 || i == 0x79 || i == 0x7A || i == 0x7B || i == 0x7C || i == 0x7D || i == 0x7E || i == 0x7F;
  }

  lemma Row8(i: bv8)
    requires i >> 4 == 0x8
    ensures |TABLE| == 256 && TABLE[i as int] == Bit8(i as bv32)
  {
    TableSize();
    assert i == 0x80 || i == 0x81 || i == 0x82 || i == 0x83 || i == 0x84 || i == 0x85 || i == 0x86 || i == 0x87 || i == 0x88 || i == 0x89 || i == 0x8A || i == 0x8B || i == 0x8C || i == 0x8D || i == 0x8E || i == 0x8F;
  }

  lemma Row9(i: bv8)
    requires i >> 4 == 0x9
    ensures |TABLE| == 256 && TABLE[i as int] == Bit8(i as bv32)
  {
    TableSize();
    assert i == 0x90 || i == 0x91 || i == 0x92 || i == 0x93 || i == 0x94 || i == 0x95 || i == 0x96 || i == 0x97 || i == 0x98 || i == 0x99 || i == 0x9A || i == 0x9B || i == 0x9C || i == 0x9D || i == 0x9E || i == 0x9F;
  }

  lemma RowA(i: bv8)
    requires i >> 4 == 0xA
    ensures |TABLE| == 256 && TABLE[i as int] == Bit8(i as bv32)
  {
    TableSize();
    assert i == 0xA0 || i == 0xA1 || i == 0xA2 || i == 0xA3 || i == 0xA4 || i == 0xA5 || i == 0xA6 || i == 0xA7 || i == 0xA8 || i == 0xA9 || i == 0xAA || i == 0xAB || i == 0xAC || i == 0xAD || i == 0xAE || i == 0xAF;
  }

  lemma RowB(i: bv8)
    requires i >> 4 == 0xB
    ensures |TABLE| == 256 && TABLE[i as int] == Bit8(i as bv32)
  {
    TableSize();
    assert i == 0xB0 || i == 0xB1 || i == 0xB2 || i == 0xB3 || i == 0xB4 || i == 0xB5 || i == 0xB6 || i == 0xB7 || i == 0xB8 || i == 0xB9 || i == 0xBA || i == 0xBB || i == 0xBC || i == 0xBD || i == 0xBE || i == 0xBF;
  }

  lemma RowC(i: bv8)
    requires i >> 4 == 0xC
    ensures |TABLE| == 256 && TABLE[i as int] == Bit8(i as bv32)
  {
    TableSize();
    assert i == 0xC0 || i == 0xC1 || i == 0xC2 || i == 0xC3 || i == 0xC4 || i == 0xC5 || i == 0xC6 || i == 0xC7 || i == 0xC8 || i == 0xC9 || i == 0xCA || i == 0xCB || i == 0xCC || i == 0xCD || i == 0xCE || i == 0xCF;
  }

  lemma RowD(i: bv8)
    requires i >> 4 == 0xD
    ensures |TABLE| == 256 && TABLE[i as int] == Bit8(i as bv32)
  {
    TableSize();
    assert i == 0xD0 || i == 0xD1 || i == 0xD2 || i == 0xD3 || i == 0xD4 || i == 0xD5 || i == 0xD6 || i == 0xD7 || i == 0xD8 || i == 0xD9 || i == 0xDA || i == 0xDB || i == 0xDC || i == 0xDD || i == 0xDE || i == 0xDF;
  }

  lemma RowE(i: bv8)
    requires i >> 4 == 0xE
    ensures |TABLE| == 256 && TABLE[i as int] == Bit8(i as bv32)
  {
    TableSize();
    assert i == 0xE0 || i == 0xE1 || i == 0xE2 || i == 0xE3 || i == 0xE4 || i == 0xE5 || i == 0xE6 || i == 0xE7 || i == 0xE8 || i == 0xE9 || i == 0xEA || i == 0xEB || i == 0xEC || i == 0xED || i == 0xEE || i == 0xEF;
  }

  lemma RowF(i: bv8)
    requires i >> 4 == 0xF
    ensures |TABLE| == 256 && TABLE[i as int] == Bit8(i as bv32)
  {
    TableSize();
    assert i == 0xF0 || i == 0xF1 || i == 0xF2 || i == 0xF3 || i == 0xF4 || i == 0xF5 || i == 0xF6 || i == 0xF7 || i == 0xF8 || i == 0xF9 || i == 0xFA || i == 0xFB || i == 0xFC || i == 0xFD || i == 0xFE || i == 0xFF;
  }

  lemma TableIsBitSteps(i: bv8)
    ensures |TABLE| == 256 && TABLE[i as int] == Bit8(i as bv32)
  {
    if i >> 4 == 0x0 { Row0(i); }
    if i >> 4 == 0x1 { Row1(i); }
    if i >> 4 == 0x2 { Row2(i); }
    if i >> 4 == 0x3 { Row3(i); }
    if i >> 4 == 0x4 { Row4(i); }
    if i >> 4 == 0x5 { Row5(i); }
    if i >> 4 == 0x6 { Row6(i); }
    if i >> 4 == 0x7 { Row7(i); }
    if i >> 4 == 0x8 { Row8(i); }
    if i >> 4 == 0x9 { Row9(i); }
    if i >> 4 == 0xA { RowA(i); }
    if i >> 4 == 0xB { RowB(i); }
    if i >> 4 == 0xC { RowC(i); }
    if i >> 4 == 0xD { RowD(i); }
    if i >> 4 == 0xE { RowE(i); }
    if i >> 4 == 0xF { RowF(i); }
  }
}
