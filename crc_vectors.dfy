/** Known values of the CRC of section 3.4 of PNG 1.2, worked out through the
    table definition: the CRC of no bytes, the CRC stored in every IEND chunk
    (the CRC of its type field, the ASCII letters "IEND"), and the customary
    check value of CRC-32 (the CRC of the ASCII text "123456789").  Each used
    table entry is derived round by round and each update step is one
    table lookup. */
module CrcVectors {
  import opened Bytes
  import opened Crc

  /** Peeling the first byte off the buffer is one update step. */
  lemma RunningCrcCons(c: ULong, b: Byte, s: seq<Byte>)
    ensures RunningCrc(c, [b] + s) == RunningCrc(Step(c, b), s)
  {
    assert ([b] + s)[1..] == s;
  }

  /** crc_table[0x01] after make_crc_table's eight rounds. */
  lemma Entry01()
    ensures TableEntry(0x01) == 0x77073096
  {
    assert Rounds(0x01, 1) == 0xEDB88320;
    assert Rounds(0x01, 2) == 0x76DC4190;
    assert Rounds(0x01, 3) == 0x3B6E20C8;
    assert Rounds(0x01, 4) == 0x1DB71064;
    assert Rounds(0x01, 5) == 0x0EDB8832;
    assert Rounds(0x01, 6) == 0x076DC419;
    assert Rounds(0x01, 7) == 0xEE0E612C;
  }

  /** crc_table[0x03] after make_crc_table's eight rounds. */
  lemma Entry03()
    ensures TableEntry(0x03) == 0x990951BA
  {
    assert Rounds(0x03, 1) == 0xEDB88321;
    assert Rounds(0x03, 2) == 0x9B64C2B0;
    assert Rounds(0x03, 3) == 0x4DB26158;
    assert Rounds(0x03, 4) == 0x26D930AC;
    assert Rounds(0x03, 5) == 0x136C9856;
    assert Rounds(0x03, 6) == 0x09B64C2B;
    assert Rounds(0x03, 7) == 0xE963A535;
  }

  /** crc_table[0x19] after make_crc_table's eight rounds. */
  lemma Entry19()
    ensures TableEntry(0x19) == 0x646BA8C0
  {
    assert Rounds(0x19, 1) == 0xEDB8832C;
    assert Rounds(0x19, 2) == 0x76DC4196;
    assert Rounds(0x19, 3) == 0x3B6E20CB;
    assert Rounds(0x19, 4) == 0xF00F9345;
    assert Rounds(0x19, 5) == 0x95BF4A82;
    assert Rounds(0x19, 6) == 0x4ADFA541;
    assert Rounds(0x19, 7) == 0xC8D75180;
  }

  /** crc_table[0x1D] after make_crc_table's eight rounds. */
  lemma Entry1D()
    ensures TableEntry(0x1D) == 0x63066CD9
  {
    assert Rounds(0x1D, 1) == 0xEDB8832E;
    assert Rounds(0x1D, 2) == 0x76DC4197;
    assert Rounds(0x1D, 3) == 0xD6D6A3EB;
    assert Rounds(0x1D, 4) == 0x86D3D2D5;
    assert Rounds(0x1D, 5) == 0xAED16A4A;
    assert Rounds(0x1D, 6) == 0x5768B525;
    assert Rounds(0x1D, 7) == 0xC60CD9B2;
  }

  /** crc_table[0x2C] after make_crc_table's eight rounds. */
  lemma Entry2C()
    ensures TableEntry(0x2C) == 0x32D86CE3
  {
    assert Rounds(0x2C, 1) == 0x00000016;
    assert Rounds(0x2C, 2) == 0x0000000B;
    assert Rounds(0x2C, 3) == 0xEDB88325;
    assert Rounds(0x2C, 4) == 0x9B64C2B2;
    assert Rounds(0x2C, 5) == 0x4DB26159;
    assert Rounds(0x2C, 6) == 0xCB61B38C;
    assert Rounds(0x2C, 7) == 0x65B0D9C6;
  }

  /** crc_table[0x31] after make_crc_table's eight rounds. */
  lemma Entry31()
    ensures TableEntry(0x31) == 0x51DE003A
  {
    assert Rounds(0x31, 1) == 0xEDB88338;
    assert Rounds(0x31, 2) == 0x76DC419C;
    assert Rounds(0x31, 3) == 0x3B6E20CE;
    assert Rounds(0x31, 4) == 0x1DB71067;
    assert Rounds(0x31, 5) == 0xE3630B13;
    assert Rounds(0x31, 6) == 0x9C0906A9;
    assert Rounds(0x31, 7) == 0xA3BC0074;
  }

  /** crc_table[0x58] after make_crc_table's eight rounds. */
  lemma Entry58()
    ensures TableEntry(0x58) == 0x65B0D9C6
  {
    assert Rounds(0x58, 1) == 0x0000002C;
    assert Rounds(0x58, 2) == 0x00000016;
    assert Rounds(0x58, 3) == 0x0000000B;
    assert Rounds(0x58, 4) == 0xEDB88325;
    assert Rounds(0x58, 5) == 0x9B64C2B2;
    assert Rounds(0x58, 6) == 0x4DB26159;
    assert Rounds(0x58, 7) == 0xCB61B38C;
  }

  /** crc_table[0x69] after make_crc_table's eight rounds. */
  lemma Entry69()
    ensures TableEntry(0x69) == 0x346ED9FC
  {
    assert Rounds(0x69, 1) == 0xEDB88314;
    assert Rounds(0x69, 2) == 0x76DC418A;
    assert Rounds(0x69, 3) == 0x3B6E20C5;
    assert Rounds(0x69, 4) == 0xF00F9342;
    assert Rounds(0x69, 5) == 0x7807C9A1;
    assert Rounds(0x69, 6) == 0xD1BB67F0;
    assert Rounds(0x69, 7) == 0x68DDB3F8;
  }

  /** crc_table[0x7A] after make_crc_table's eight rounds. */
  lemma Entry7A()
    ensures TableEntry(0x7A) == 0xB0D09822
  {
    assert Rounds(0x7A, 1) == 0x0000003D;
    assert Rounds(0x7A, 2) == 0xEDB8833E;
    assert Rounds(0x7A, 3) == 0x76DC419F;
    assert Rounds(0x7A, 4) == 0xD6D6A3EF;
    assert Rounds(0x7A, 5) == 0x86D3D2D7;
    assert Rounds(0x7A, 6) == 0xAED16A4B;
    assert Rounds(0x7A, 7) == 0xBAD03605;
  }

  /** crc_table[0xA9] after make_crc_table's eight rounds. */
  lemma EntryA9()
    ensures TableEntry(0xA9) == 0xAF0A1B4C
  {
    assert Rounds(0xA9, 1) == 0xEDB88374;
    assert Rounds(0xA9, 2) == 0x76DC41BA;
    assert Rounds(0xA9, 3) == 0x3B6E20DD;
    assert Rounds(0xA9, 4) == 0xF00F934E;
    assert Rounds(0xA9, 5) == 0x7807C9A7;
    assert Rounds(0xA9, 6) == 0xD1BB67F3;
    assert Rounds(0xA9, 7) == 0x856530D9;
  }

  /** crc_table[0xB5] after make_crc_table's eight rounds. */
  lemma EntryB5()
    ensures TableEntry(0xB5) == 0xBB0B4703
  {
    assert Rounds(0xB5, 1) == 0xEDB8837A;
    assert Rounds(0xB5, 2) == 0x76DC41BD;
    assert Rounds(0xB5, 3) == 0xD6D6A3FE;
    assert Rounds(0xB5, 4) == 0x6B6B51FF;
    assert Rounds(0xB5, 5) == 0xD80D2BDF;
    assert Rounds(0xB5, 6) == 0x81BE16CF;
    assert Rounds(0xB5, 7) == 0xAD678847;
  }

  /** crc_table[0xB6] after make_crc_table's eight rounds. */
  lemma EntryB6()
    ensures TableEntry(0xB6) == 0x220216B9
  {
    assert Rounds(0xB6, 1) == 0x0000005B;
    assert Rounds(0xB6, 2) == 0xEDB8830D;
    assert Rounds(0xB6, 3) == 0x9B64C2A6;
    assert Rounds(0xB6, 4) == 0x4DB26153;
    assert Rounds(0xB6, 5) == 0xCB61B389;
    assert Rounds(0xB6, 6) == 0x88085AE4;
    assert Rounds(0xB6, 7) == 0x44042D72;
  }

  /** crc_table[0xBB] after make_crc_table's eight rounds. */
  lemma EntryBB()
    ensures TableEntry(0xBB) == 0x5CB36A04
  {
    assert Rounds(0xBB, 1) == 0xEDB8837D;
    assert Rounds(0xBB, 2) == 0x9B64C29E;
    assert Rounds(0xBB, 3) == 0x4DB2614F;
    assert Rounds(0xBB, 4) == 0xCB61B387;
    assert Rounds(0xBB, 5) == 0x88085AE3;
    assert Rounds(0xBB, 6) == 0xA9BCAE51;
    assert Rounds(0xBB, 7) == 0xB966D408;
  }

  /** crc_table[0xCE] after make_crc_table's eight rounds. */
  lemma EntryCE()
    ensures TableEntry(0xCE) == 0x7CDCEFB7
  {
    assert Rounds(0xCE, 1) == 0x00000067;
    assert Rounds(0xCE, 2) == 0xEDB88313;
    assert Rounds(0xCE, 3) == 0x9B64C2A9;
    assert Rounds(0xCE, 4) == 0xA00AE274;
    assert Rounds(0xCE, 5) == 0x5005713A;
    assert Rounds(0xCE, 6) == 0x2802B89D;
    assert Rounds(0xCE, 7) == 0xF9B9DF6E;
  }

  /** crc_table[0xD3] after make_crc_table's eight rounds. */
  lemma EntryD3()
    ensures TableEntry(0xD3) == 0x1FDA836E
  {
    assert Rounds(0xD3, 1) == 0xEDB88349;
    assert Rounds(0xD3, 2) == 0x9B64C284;
    assert Rounds(0xD3, 3) == 0x4DB26142;
    assert Rounds(0xD3, 4) == 0x26D930A1;
    assert Rounds(0xD3, 5) == 0xFED41B70;
    assert Rounds(0xD3, 6) == 0x7F6A0DB8;
    assert Rounds(0xD3, 7) == 0x3FB506DC;
  }

  /** crc_table[0xD5] after make_crc_table's eight rounds. */
  lemma EntryD5()
    ensures TableEntry(0xD5) == 0xF6B9265B
  {
    assert Rounds(0xD5, 1) == 0xEDB8834A;
    assert Rounds(0xD5, 2) == 0x76DC41A5;
    assert Rounds(0xD5, 3) == 0xD6D6A3F2;
    assert Rounds(0xD5, 4) == 0x6B6B51F9;
    assert Rounds(0xD5, 5) == 0xD80D2BDC;
    assert Rounds(0xD5, 6) == 0x6C0695EE;
    assert Rounds(0xD5, 7) == 0x36034AF7;
  }

  lemma IendSteps()
    ensures RunningCrc(AllOnes, [0x49, 0x45, 0x4E, 0x44]) == 0x51BD9F7D
  {
    EntryB6();
    RunningCrcCons(0xFFFFFFFF, 0x49, [0x45, 0x4E, 0x44]);
    assert Step(0xFFFFFFFF, 0x49) == 0x22FDE946;
    Entry03();
    RunningCrcCons(0x22FDE946, 0x45, [0x4E, 0x44]);
    assert Step(0x22FDE946, 0x45) == 0x992BAC53;
    Entry1D();
    RunningCrcCons(0x992BAC53, 0x4E, [0x44]);
    assert Step(0x992BAC53, 0x4E) == 0x639F4775;
    Entry31();
    RunningCrcCons(0x639F4775, 0x44, []);
    assert Step(0x639F4775, 0x44) == 0x51BD9F7D;
  }

  lemma DneiSteps()
    ensures RunningCrc(AllOnes, [0x44, 0x4E, 0x45, 0x49]) == 0x32C70D37
  {
    EntryBB();
    RunningCrcCons(0xFFFFFFFF, 0x44, [0x4E, 0x45, 0x49]);
    assert Step(0xFFFFFFFF, 0x44) == 0x5C4C95FB;
    EntryB5();
    RunningCrcCons(0x5C4C95FB, 0x4E, [0x45, 0x49]);
    assert Step(0x5C4C95FB, 0x4E) == 0xBB570B96;
    EntryD3();
    RunningCrcCons(0xBB570B96, 0x45, [0x49]);
    assert Step(0xBB570B96, 0x45) == 0x1F61D465;
    Entry2C();
    RunningCrcCons(0x1F61D465, 0x49, []);
    assert Step(0x1F61D465, 0x49) == 0x32C70D37;
  }

  lemma CheckStringSteps()
    ensures RunningCrc(AllOnes, [0x31, 0x32, 0x33, 0x34, 0x35, 0x36, 0x37, 0x38, 0x39]) == 0x340BC6D9
  {
    EntryCE();
    RunningCrcCons(0xFFFFFFFF, 0x31, [0x32, 0x33, 0x34, 0x35, 0x36, 0x37, 0x38, 0x39]);
    assert Step(0xFFFFFFFF, 0x31) == 0x7C231048;
    Entry7A();
    RunningCrcCons(0x7C231048, 0x32, [0x33, 0x34, 0x35, 0x36, 0x37, 0x38, 0x39]);
    assert Step(0x7C231048, 0x32) == 0xB0ACBB32;
    Entry01();
    RunningCrcCons(0xB0ACBB32, 0x33, [0x34, 0x35, 0x36, 0x37, 0x38, 0x39]);
    assert Step(0xB0ACBB32, 0x33) == 0x77B79C2D;
    Entry19();
    RunningCrcCons(0x77B79C2D, 0x34, [0x35, 0x36, 0x37, 0x38, 0x39]);
    assert Step(0x77B79C2D, 0x34) == 0x641C1F5C;
    Entry69();
    RunningCrcCons(0x641C1F5C, 0x35, [0x36, 0x37, 0x38, 0x39]);
    assert Step(0x641C1F5C, 0x35) == 0x340AC5E3;
    EntryD5();
    RunningCrcCons(0x340AC5E3, 0x36, [0x37, 0x38, 0x39]);
    assert Step(0x340AC5E3, 0x36) == 0xF68D2C9E;
    EntryA9();
    RunningCrcCons(0xF68D2C9E, 0x37, [0x38, 0x39]);
    assert Step(0xF68D2C9E, 0x37) == 0xAFFC9660;
    Entry58();
    RunningCrcCons(0xAFFC9660, 0x38, [0x39]);
    assert Step(0xAFFC9660, 0x38) == 0x651F2550;
    Entry69();
    RunningCrcCons(0x651F2550, 0x39, []);
    assert Step(0x651F2550, 0x39) == 0x340BC6D9;
  }
  /** The CRC of an empty buffer is 0. */
  lemma ChecksumOfNothing()
    ensures Checksum([]) == 0
  {
  }

  /** The CRC that closes every PNG file: the IEND chunk's, 0xAE426082. */
  lemma ChecksumOfIend()
    ensures Checksum([0x49, 0x45, 0x4E, 0x44]) == 0xAE42_6082
  {
    IendSteps();
  }

  /** The CRC of the letters of IEND in reverse order, "DNEI": what a
      little-endian host hashes for the type word of an IEND chunk. */
  lemma ChecksumOfDnei()
    ensures Checksum([0x44, 0x4E, 0x45, 0x49]) == 0xCD38_F2C8
  {
    DneiSteps();
  }

  /** The check value of CRC-32. */
  lemma ChecksumOfCheckString()
    ensures Checksum([0x31, 0x32, 0x33, 0x34, 0x35, 0x36, 0x37, 0x38, 0x39]) == 0xCBF4_3926
  {
    CheckStringSteps();
  }
}
