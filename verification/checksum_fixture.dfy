/** The checksum test of the order book (order_book.rs:451-482): a
    depth-ten book whose twenty levels hash to 974947235. */
module ChecksumFixture {
  import opened Levels
  import opened Format
  import opened OrderBook
  import opened Fixtures
  import opened Checksum
  import Crc32

  /** Asks 0.05005 to 0.05050 and bids 0.05000 down to 0.04950 (no 0.04985),
      each with volume 0.00000500. */
  const ChecksumAsks: seq<Level> := [
    Level(5005, 500), Level(5010, 500), Level(5015, 500), Level(5020, 500), Level(5025, 500),
    Level(5030, 500), Level(5035, 500), Level(5040, 500), Level(5045, 500), Level(5050, 500)]

  const ChecksumBids: seq<Level> := [
    Level(5000, 500), Level(4995, 500), Level(4990, 500), Level(4980, 500), Level(4975, 500),
    Level(4970, 500), Level(4965, 500), Level(4960, 500), Level(4955, 500), Level(4950, 500)]

  /** The test's book holds the rows as sent. */
  lemma ChecksumBookLoads()
    ensures Initialize(New(10), Some(Rows(ChecksumAsks)), Some(Rows(ChecksumBids)))
      == Book(10, ChecksumBids, ChecksumAsks)
  {
    SortedFromAdjacent(Asks, ChecksumAsks);
    SortedFromAdjacent(Bids, ChecksumBids);
    LoadsAsGiven(ChecksumAsks, ChecksumBids);
  }

  /** One level's digits: its scaled price, then its scaled volume. */
  function LevelDigits(l: Level): string {
    Digits(l.price) + Digits(l.volume)
  }

  /** Hashing a side's text level by level: when each level's digits take
      the register from one state to the next, the whole text takes it from
      the first state to the last. */
  lemma {:induction false} CrcOfLevels(levels: seq<Level>, states: seq<bv32>, n: nat, first: bv32, last: bv32)
    requires n == |levels| && |states| == n + 1 && states[0] == first && states[n] == last
    requires forall i :: 0 <= i < n ==>
      IsAscii(LevelDigits(levels[i])) && Crc32.Update(states[i], AsciiBytes(LevelDigits(levels[i]))) == states[i + 1]
    ensures IsAscii(DigitsText(levels))
    ensures Crc32.Update(first, AsciiBytes(DigitsText(levels))) == last
  {
    if n > 0 {
      assert forall i :: 0 <= i < n - 1 ==> levels[1..][i] == levels[i + 1] && states[1..][i] == states[i + 1];
      CrcOfLevels(levels[1..], states[1..], n - 1, states[1], last);
      var head := LevelDigits(levels[0]);
      var rest := DigitsText(levels[1..]);
      assert DigitsText(levels) == head + rest;
      AsciiBytesAppend(head, rest);
      Crc32.UpdateAppend(first, AsciiBytes(head), AsciiBytes(rest));
      assert Crc32.Update(first, AsciiBytes(head)) == states[1];
      assert Crc32.Update(first, AsciiBytes(head + rest)) == last;
    } else {
      assert DigitsText(levels) == "" && AsciiBytes("") == [];
    }
  }

  /** Joins the facts about one level: the digits of its price and
      volume, the bytes of that text, and the register step those bytes
      make. */
  lemma LevelCrc(l: Level, price: string, volume: string, bytes: seq<bv8>, c: bv32, c2: bv32)
    requires Digits(l.price) == price && Digits(l.volume) == volume
    requires IsAscii(price + volume) && AsciiBytes(price + volume) == bytes
    requires Crc32.Update(c, bytes) == c2
    ensures IsAscii(LevelDigits(l)) && Crc32.Update(c, AsciiBytes(LevelDigits(l))) == c2
  {
  }

  /** The volume 0.00000500 is written "500". */
  lemma VolumeText()
    ensures Digits(500) == "500"
  {
    assert Digits(5) == "5";
    assert Digits(50) == "50";
  }

  /** The CRC register before the first level and after each ask. */
  const AskStates: seq<bv32> := [
    0xFFFF_FFFF, 0x2159_3CE8, 0x270E_8FAC, 0x9392_0328,
    0x7021_8054, 0x67BE_305D, 0x7CCA_609E, 0x3125_8BDC,
    0xD836_F801, 0x247D_F639, 0x6CD6_65B9]

  /** The register after the last ask and after each bid. */
  const BidStates: seq<bv32> := [
    0x6CD6_65B9, 0xEE85_BA83, 0x82AB_EDF1, 0xD008_3D50,
    0x4809_F27A, 0x3360_BFD1, 0xDAC8_E364, 0x3257_4888,
    0xF2CF_4CE2, 0xA1DD_156A, 0xC5E3_7C5C]

  /** Ask level 0, 0.05005 at 0.00000500, is written "5005500" and moves the
      register from 0xFFFF_FFFF to 0x2159_3CE8. */
  lemma AskLevelCrc0()
    ensures IsAscii(LevelDigits(ChecksumAsks[0]))
    ensures Crc32.Update(AskStates[0], AsciiBytes(LevelDigits(ChecksumAsks[0]))) == AskStates[1]
  {
    AskPrice0();
    VolumeText();
    AskAscii0();
    AskRegister0();
    assert ChecksumAsks[0] == Level(5005, 500) && AskStates[0] == 0xFFFF_FFFF && AskStates[1] == 0x2159_3CE8;
    LevelCrc(ChecksumAsks[0], "5005", "500", [0x35, 0x30, 0x30, 0x35, 0x35, 0x30, 0x30], AskStates[0], AskStates[1]);
  }

  lemma AskPrice0()
    ensures Digits(5005) == "5005"
  {
    assert Digits(5) == "5";
    assert Digits(50) == "50";
    assert Digits(500) == "500";
  }

  lemma AskAscii0()
    ensures IsAscii("5005" + "500") && AsciiBytes("5005" + "500") == [0x35, 0x30, 0x30, 0x35, 0x35, 0x30, 0x30]
  {
  }

  lemma AskRegister0()
    ensures Crc32.Update(0xFFFF_FFFF, [0x35, 0x30, 0x30, 0x35, 0x35, 0x30, 0x30]) == 0x2159_3CE8
  {
    assert Crc32.UpdateByte(0xFFFF_FFFF, 0x35) == 0x7B4E_D451;
    assert Crc32.UpdateByte(0x7B4E_D451, 0x30) == 0x3ACE_1F1A;
    assert Crc32.UpdateByte(0x3ACE_1F1A, 0x30) == 0xDB81_07C9;
    assert Crc32.UpdateByte(0xDB81_07C9, 0x35) == 0xB4D0_3F30;
    assert Crc32.UpdateByte(0xB4D0_3F30, 0x35) == 0x70DE_24B0;
    assert Crc32.UpdateByte(0x70DE_24B0, 0x30) == 0xEDC8_5D04;
    assert Crc32.UpdateByte(0xEDC8_5D04, 0x30) == 0x2159_3CE8;
  }

  /** Ask level 1, 0.05010 at 0.00000500, is written "5010500" and moves the
      register from 0x2159_3CE8 to 0x270E_8FAC. */
  lemma AskLevelCrc1()
    ensures IsAscii(LevelDigits(ChecksumAsks[1]))
    ensures Crc32.Update(AskStates[1], AsciiBytes(LevelDigits(ChecksumAsks[1]))) == AskStates[2]
  {
    AskPrice1();
    VolumeText();
    AskAscii1();
    AskRegister1();
    assert ChecksumAsks[1] == Level(5010, 500) && AskStates[1] == 0x2159_3CE8 && AskStates[2] == 0x270E_8FAC;
    LevelCrc(ChecksumAsks[1], "5010", "500", [0x35, 0x30, 0x31, 0x30, 0x35, 0x30, 0x30], AskStates[1], AskStates[2]);
  }

  lemma AskPrice1()
    ensures Digits(5010) == "5010"
  {
    assert Digits(5) == "5";
    assert Digits(50) == "50";
    assert Digits(501) == "501";
  }

  lemma AskAscii1()
    ensures IsAscii("5010" + "500") && AsciiBytes("5010" + "500") == [0x35, 0x30, 0x31, 0x30, 0x35, 0x30, 0x30]
  {
  }

  lemma AskRegister1()
    ensures Crc32.Update(0x2159_3CE8, [0x35, 0x30, 0x31, 0x30, 0x35, 0x30, 0x30]) == 0x270E_8FAC
  {
    assert Crc32.UpdateByte(0x2159_3CE8, 0x35) == 0xF843_F755;
    assert Crc32.UpdateByte(0xF843_F755, 0x30) == 0x3D20_D620;
    assert Crc32.UpdateByte(0x3D20_D620, 0x31) == 0x6A8D_0024;
    assert Crc32.UpdateByte(0x6A8D_0024, 0x30) == 0x1AB0_597D;
    assert Crc32.UpdateByte(0x1AB0_597D, 0x35) == 0x781D_79FB;
    assert Crc32.UpdateByte(0x781D_79FB, 0x30) == 0x0CCE_0641;
    assert Crc32.UpdateByte(0x0CCE_0641, 0x30) == 0x270E_8FAC;
  }

  /** Ask level 2, 0.05015 at 0.00000500, is written "5015500" and moves the
      register from 0x270E_8FAC to 0x9392_0328. */
  lemma AskLevelCrc2()
    ensures IsAscii(LevelDigits(ChecksumAsks[2]))
    ensures Crc32.Update(AskStates[2], AsciiBytes(LevelDigits(ChecksumAsks[2]))) == AskStates[3]
  {
    AskPrice2();
    VolumeText();
    AskAscii2();
    AskRegister2();
    assert ChecksumAsks[2] == Level(5015, 500) && AskStates[2] == 0x270E_8FAC && AskStates[3] == 0x9392_0328;
    LevelCrc(ChecksumAsks[2], "5015", "500", [0x35, 0x30, 0x31, 0x35, 0x35, 0x30, 0x30], AskStates[2], AskStates[3]);
  }

  lemma AskPrice2()
    ensures Digits(5015) == "5015"
  {
    assert Digits(5) == "5";
    assert Digits(50) == "50";
    assert Digits(501) == "501";
  }

  lemma AskAscii2()
    ensures IsAscii("5015" + "500") && AsciiBytes("5015" + "500") == [0x35, 0x30, 0x31, 0x35, 0x35, 0x30, 0x30]
  {
  }

  lemma AskRegister2()
    ensures Crc32.Update(0x270E_8FAC, [0x35, 0x30, 0x31, 0x35, 0x35, 0x30, 0x30]) == 0x9392_0328
  {
    assert Crc32.UpdateByte(0x270E_8FAC, 0x35) == 0x89F4_256F;
    assert Crc32.UpdateByte(0x89F4_256F, 0x30) == 0xFB5D_B840;
    assert Crc32.UpdateByte(0xFB5D_B840, 0x31) == 0x27F9_1C12;
    assert Crc32.UpdateByte(0x27F9_1C12, 0x35) == 0xA52D_4C77;
    assert Crc32.UpdateByte(0xA52D_4C77, 0x35) == 0x9877_0DF0;
    assert Crc32.UpdateByte(0x9877_0DF0, 0x30) == 0x9BFC_B5BD;
    assert Crc32.UpdateByte(0x9BFC_B5BD, 0x30) == 0x9392_0328;
  }

  /** Ask level 3, 0.05020 at 0.00000500, is written "5020500" and moves the
      register from 0x9392_0328 to 0x7021_8054. */
  lemma AskLevelCrc3()
    ensures IsAscii(LevelDigits(ChecksumAsks[3]))
    ensures Crc32.Update(AskStates[3], AsciiBytes(LevelDigits(ChecksumAsks[3]))) == AskStates[4]
  {
    AskPrice3();
    VolumeText();
    AskAscii3();
    AskRegister3();
    assert ChecksumAsks[3] == Level(5020, 500) && AskStates[3] == 0x9392_0328 && AskStates[4] == 0x7021_8054;
    LevelCrc(ChecksumAsks[3], "5020", "500", [0x35, 0x30, 0x32, 0x30, 0x35, 0x30, 0x30], AskStates[3], AskStates[4]);
  }

  lemma AskPrice3()
    ensures Digits(5020) == "5020"
  {
    assert Digits(5) == "5";
    assert Digits(50) == "50";
    assert Digits(502) == "502";
  }

  lemma AskAscii3()
    ensures IsAscii("5020" + "500") && AsciiBytes("5020" + "500") == [0x35, 0x30, 0x32, 0x30, 0x35, 0x30, 0x30]
  {
  }

  lemma AskRegister3()
    ensures Crc32.Update(0x9392_0328, [0x35, 0x30, 0x32, 0x30, 0x35, 0x30, 0x30]) == 0x7021_8054
  {
    assert Crc32.UpdateByte(0x9392_0328, 0x35) == 0x6395_FEDA;
    assert Crc32.UpdateByte(0x6395_FEDA, 0x30) == 0x40BC_9E98;
    assert Crc32.UpdateByte(0x40BC_9E98, 0x32) == 0x3643_F668;
    assert Crc32.UpdateByte(0x3643_F668, 0x30) == 0x6586_9A30;
    assert Crc32.UpdateByte(0x6586_9A30, 0x35) == 0x700F_7215;
    assert Crc32.UpdateByte(0x700F_7215, 0x30) == 0x4B74_DB35;
    assert Crc32.UpdateByte(0x4B74_DB35, 0x30) == 0x7021_8054;
  }

  /** Ask level 4, 0.05025 at 0.00000500, is written "5025500" and moves the
      register from 0x7021_8054 to 0x67BE_305D. */
  lemma AskLevelCrc4()
    ensures IsAscii(LevelDigits(ChecksumAsks[4]))
    ensures Crc32.Update(AskStates[4], AsciiBytes(LevelDigits(ChecksumAsks[4]))) == AskStates[5]
  {
    AskPrice4();
    VolumeText();
    AskAscii4();
    AskRegister4();
    assert ChecksumAsks[4] == Level(5025, 500) && AskStates[4] == 0x7021_8054 && AskStates[5] == 0x67BE_305D;
    LevelCrc(ChecksumAsks[4], "5025", "500", [0x35, 0x30, 0x32, 0x35, 0x35, 0x30, 0x30], AskStates[4], AskStates[5]);
  }

  lemma AskPrice4()
    ensures Digits(5025) == "5025"
  {
    assert Digits(5) == "5";
    assert Digits(50) == "50";
    assert Digits(502) == "502";
  }

  lemma AskAscii4()
    ensures IsAscii("5025" + "500") && AsciiBytes("5025" + "500") == [0x35, 0x30, 0x32, 0x35, 0x35, 0x30, 0x30]
  {
  }

  lemma AskRegister4()
    ensures Crc32.Update(0x7021_8054, [0x35, 0x30, 0x32, 0x35, 0x35, 0x30, 0x30]) == 0x67BE_305D
  {
    assert Crc32.UpdateByte(0x7021_8054, 0x35) == 0x3AC5_704E;
    assert Crc32.UpdateByte(0x3AC5_704E, 0x30) == 0xB787_994B;
    assert Crc32.UpdateByte(0xB787_994B, 0x32) == 0x296E_4E01;
    assert Crc32.UpdateByte(0x296E_4E01, 0x35) == 0x219D_9AFB;
    assert Crc32.UpdateByte(0x219D_9AFB, 0x35) == 0x7CFD_722D;
    assert Crc32.UpdateByte(0x7CFD_722D, 0x30) == 0x637A_91AB;
    assert Crc32.UpdateByte(0x637A_91AB, 0x30) == 0x67BE_305D;
  }

  /** Ask level 5, 0.05030 at 0.00000500, is written "5030500" and moves the
      register from 0x67BE_305D to 0x7CCA_609E. */
  lemma AskLevelCrc5()
    ensures IsAscii(LevelDigits(ChecksumAsks[5]))
    ensures Crc32.Update(AskStates[5], AsciiBytes(LevelDigits(ChecksumAsks[5]))) == AskStates[6]
  {
    AskPrice5();
    VolumeText();
    AskAscii5();
    AskRegister5();
    assert ChecksumAsks[5] == Level(5030, 500) && AskStates[5] == 0x67BE_305D && AskStates[6] == 0x7CCA_609E;
    LevelCrc(ChecksumAsks[5], "5030", "500", [0x35, 0x30, 0x33, 0x30, 0x35, 0x30, 0x30], AskStates[5], AskStates[6]);
  }

  lemma AskPrice5()
    ensures Digits(5030) == "5030"
  {
    assert Digits(5) == "5";
    assert Digits(50) == "50";
    assert Digits(503) == "503";
  }

  lemma AskAscii5()
    ensures IsAscii("5030" + "500") && AsciiBytes("5030" + "500") == [0x35, 0x30, 0x33, 0x30, 0x35, 0x30, 0x30]
  {
  }

  lemma AskRegister5()
    ensures Crc32.Update(0x67BE_305D, [0x35, 0x30, 0x33, 0x30, 0x35, 0x30, 0x30]) == 0x7CCA_609E
  {
    assert Crc32.UpdateByte(0x67BE_305D, 0x35) == 0x430E_575A;
    assert Crc32.UpdateByte(0x430E_575A, 0x30) == 0xAD24_8611;
    assert Crc32.UpdateByte(0xAD24_8611, 0x33) == 0xD5CD_6562;
    assert Crc32.UpdateByte(0xD5CD_6562, 0x30) == 0x85B0_FDBD;
    assert Crc32.UpdateByte(0x85B0_FDBD, 0x35) == 0xE3E6_BBEF;
    assert Crc32.UpdateByte(0xE3E6_BBEF, 0x30) == 0x168F_29FE;
    assert Crc32.UpdateByte(0x168F_29FE, 0x30) == 0x7CCA_609E;
  }

  /** Ask level 6, 0.05035 at 0.00000500, is written "5035500" and moves the
      register from 0x7CCA_609E to 0x3125_8BDC. */
  lemma AskLevelCrc6()
    ensures IsAscii(LevelDigits(ChecksumAsks[6]))
    ensures Crc32.Update(AskStates[6], AsciiBytes(LevelDigits(ChecksumAsks[6]))) == AskStates[7]
  {
    AskPrice6();
    VolumeText();
    AskAscii6();
    AskRegister6();
    assert ChecksumAsks[6] == Level(5035, 500) && AskStates[6] == 0x7CCA_609E && AskStates[7] == 0x3125_8BDC;
    LevelCrc(ChecksumAsks[6], "5035", "500", [0x35, 0x30, 0x33, 0x35, 0x35, 0x30, 0x30], AskStates[6], AskStates[7]);
  }

  lemma AskPrice6()
    ensures Digits(5035) == "5035"
  {
    assert Digits(5) == "5";
    assert Digits(50) == "50";
    assert Digits(503) == "503";
  }

  lemma AskAscii6()
    ensures IsAscii("5035" + "500") && AsciiBytes("5035" + "500") == [0x35, 0x30, 0x33, 0x35, 0x35, 0x30, 0x30]
  {
  }

  lemma AskRegister6()
    ensures Crc32.Update(0x7CCA_609E, [0x35, 0x30, 0x33, 0x35, 0x35, 0x30, 0x30]) == 0x3125_8BDC
  {
    assert Crc32.UpdateByte(0x7CCA_609E, 0x35) == 0x4178_B000;
    assert Crc32.UpdateByte(0x4178_B000, 0x30) == 0x2698_481C;
    assert Crc32.UpdateByte(0x2698_481C, 0x33) == 0xABF7_A511;
    assert Crc32.UpdateByte(0xABF7_A511, 0x35) == 0x3CA8_1374;
    assert Crc32.UpdateByte(0x3CA8_1374, 0x35) == 0x01E7_D915;
    assert Crc32.UpdateByte(0x01E7_D915, 0x30) == 0x4B05_339E;
    assert Crc32.UpdateByte(0x4B05_339E, 0x30) == 0x3125_8BDC;
  }

  /** Ask level 7, 0.05040 at 0.00000500, is written "5040500" and moves the
      register from 0x3125_8BDC to 0xD836_F801. */
  lemma AskLevelCrc7()
    ensures IsAscii(LevelDigits(ChecksumAsks[7]))
    ensures Crc32.Update(AskStates[7], AsciiBytes(LevelDigits(ChecksumAsks[7]))) == AskStates[8]
  {
    AskPrice7();
    VolumeText();
    AskAscii7();
    AskRegister7();
    assert ChecksumAsks[7] == Level(5040, 500) && AskStates[7] == 0x3125_8BDC && AskStates[8] == 0xD836_F801;
    LevelCrc(ChecksumAsks[7], "5040", "500", [0x35, 0x30, 0x34, 0x30, 0x35, 0x30, 0x30], AskStates[7], AskStates[8]);
  }

  lemma AskPrice7()
    ensures Digits(5040) == "5040"
  {
    assert Digits(5) == "5";
    assert Digits(50) == "50";
    assert Digits(504) == "504";
  }

  lemma AskAscii7()
    ensures IsAscii("5040" + "500") && AsciiBytes("5040" + "500") == [0x35, 0x30, 0x34, 0x30, 0x35, 0x30, 0x30]
  {
  }

  lemma AskRegister7()
    ensures Crc32.Update(0x3125_8BDC, [0x35, 0x30, 0x34, 0x30, 0x35, 0x30, 0x30]) == 0xD836_F801
  {
    assert Crc32.UpdateByte(0x3125_8BDC, 0x35) == 0xD9E7_7F57;
    assert Crc32.UpdateByte(0xD9E7_7F57, 0x30) == 0xD30F_1384;
    assert Crc32.UpdateByte(0xD30F_1384, 0x34) == 0xCBB2_BC9F;
    assert Crc32.UpdateByte(0xCBB2_BC9F, 0x30) == 0x46A2_0CC5;
    assert Crc32.UpdateByte(0x46A2_0CC5, 0x35) == 0xBDFB_5010;
    assert Crc32.UpdateByte(0xBDFB_5010, 0x30) == 0x3BD3_DB98;
    assert Crc32.UpdateByte(0x3BD3_DB98, 0x30) == 0xD836_F801;
  }

  /** Ask level 8, 0.05045 at 0.00000500, is written "5045500" and moves the
      register from 0xD836_F801 to 0x247D_F639. */
  lemma AskLevelCrc8()
    ensures IsAscii(LevelDigits(ChecksumAsks[8]))
    ensures Crc32.Update(AskStates[8], AsciiBytes(LevelDigits(ChecksumAsks[8]))) == AskStates[9]
  {
    AskPrice8();
    VolumeText();
    AskAscii8();
    AskRegister8();
    assert ChecksumAsks[8] == Level(5045, 500) && AskStates[8] == 0xD836_F801 && AskStates[9] == 0x247D_F639;
    LevelCrc(ChecksumAsks[8], "5045", "500", [0x35, 0x30, 0x34, 0x35, 0x35, 0x30, 0x30], AskStates[8], AskStates[9]);
  }

  lemma AskPrice8()
    ensures Digits(5045) == "5045"
  {
    assert Digits(5) == "5";
    assert Digits(50) == "50";
    assert Digits(504) == "504";
  }

  lemma AskAscii8()
    ensures IsAscii("5045" + "500") && AsciiBytes("5045" + "500") == [0x35, 0x30, 0x34, 0x35, 0x35, 0x30, 0x30]
  {
  }

  lemma AskRegister8()
    ensures Crc32.Update(0xD836_F801, [0x35, 0x30, 0x34, 0x35, 0x35, 0x30, 0x30]) == 0x247D_F639
  {
    assert Crc32.UpdateByte(0xD836_F801, 0x35) == 0x216C_C24D;
    assert Crc32.UpdateByte(0x216C_C24D, 0x30) == 0x2E95_6143;
    assert Crc32.UpdateByte(0x2E95_6143, 0x34) == 0xCE4F_71FE;
    assert Crc32.UpdateByte(0xCE4F_71FE, 0x35) == 0x0C78_5449;
    assert Crc32.UpdateByte(0x0C78_5449, 0x35) == 0x59BF_4543;
    assert Crc32.UpdateByte(0x59BF_4543, 0x30) == 0xC955_9FC3;
    assert Crc32.UpdateByte(0xC955_9FC3, 0x30) == 0x247D_F639;
  }

  /** Ask level 9, 0.05050 at 0.00000500, is written "5050500" and moves the
      register from 0x247D_F639 to 0x6CD6_65B9. */
  lemma AskLevelCrc9()
    ensures IsAscii(LevelDigits(ChecksumAsks[9]))
    ensures Crc32.Update(AskStates[9], AsciiBytes(LevelDigits(ChecksumAsks[9]))) == AskStates[10]
  {
    AskPrice9();
    VolumeText();
    AskAscii9();
    AskRegister9();
    assert ChecksumAsks[9] == Level(5050, 500) && AskStates[9] == 0x247D_F639 && AskStates[10] == 0x6CD6_65B9;
    LevelCrc(ChecksumAsks[9], "5050", "500", [0x35, 0x30, 0x35, 0x30, 0x35, 0x30, 0x30], AskStates[9], AskStates[10]);
  }

  lemma AskPrice9()
    ensures Digits(5050) == "5050"
  {
    assert Digits(5) == "5";
    assert Digits(50) == "50";
    assert Digits(505) == "505";
  }

  lemma AskAscii9()
    ensures IsAscii("5050" + "500") && AsciiBytes("5050" + "500") == [0x35, 0x30, 0x35, 0x30, 0x35, 0x30, 0x30]
  {
  }

  lemma AskRegister9()
    ensures Crc32.Update(0x247D_F639, [0x35, 0x30, 0x35, 0x30, 0x35, 0x30, 0x30]) == 0x6CD6_65B9
  {
    assert Crc32.UpdateByte(0x247D_F639, 0x35) == 0x0992_31DD;
    assert Crc32.UpdateByte(0x0992_31DD, 0x30) == 0xDEB2_0CF4;
    assert Crc32.UpdateByte(0xDEB2_0CF4, 0x35) == 0xECBD_402A;
    assert Crc32.UpdateByte(0xECBD_402A, 0x30) == 0xFD8E_443A;
    assert Crc32.UpdateByte(0xFD8E_443A, 0x35) == 0x9042_93D5;
    assert Crc32.UpdateByte(0x9042_93D5, 0x30) == 0xD0F0_5464;
    assert Crc32.UpdateByte(0xD0F0_5464, 0x30) == 0x6CD6_65B9;
  }

  /** Bid level 0, 0.05000 at 0.00000500, is written "5000500" and moves the
      register from 0x6CD6_65B9 to 0xEE85_BA83. */
  lemma BidLevelCrc0()
    ensures IsAscii(LevelDigits(ChecksumBids[0]))
    ensures Crc32.Update(BidStates[0], AsciiBytes(LevelDigits(ChecksumBids[0]))) == BidStates[1]
  {
    BidPrice0();
    VolumeText();
    BidAscii0();
    BidRegister0();
    assert ChecksumBids[0] == Level(5000, 500) && BidStates[0] == 0x6CD6_65B9 && BidStates[1] == 0xEE85_BA83;
    LevelCrc(ChecksumBids[0], "5000", "500", [0x35, 0x30, 0x30, 0x30, 0x35, 0x30, 0x30], BidStates[0], BidStates[1]);
  }

  lemma BidPrice0()
    ensures Digits(5000) == "5000"
  {
    assert Digits(5) == "5";
    assert Digits(50) == "50";
    assert Digits(500) == "500";
  }

  lemma BidAscii0()
    ensures IsAscii("5000" + "500") && AsciiBytes("5000" + "500") == [0x35, 0x30, 0x30, 0x30, 0x35, 0x30, 0x30]
  {
  }

  lemma BidRegister0()
    ensures Crc32.Update(0x6CD6_65B9, [0x35, 0x30, 0x30, 0x30, 0x35, 0x30, 0x30]) == 0xEE85_BA83
  {
    assert Crc32.UpdateByte(0x6CD6_65B9, 0x35) == 0xE462_196E;
    assert Crc32.UpdateByte(0xE462_196E, 0x30) == 0x8C37_1EEA;
    assert Crc32.UpdateByte(0x8C37_1EEA, 0x30) == 0x668A_0CD4;
    assert Crc32.UpdateByte(0x668A_0CD4, 0x30) == 0xA701_AC6D;
    assert Crc32.UpdateByte(0xA701_AC6D, 0x35) == 0x6517_D86A;
    assert Crc32.UpdateByte(0x6517_D86A, 0x30) == 0x8BDB_AF32;
    assert Crc32.UpdateByte(0x8BDB_AF32, 0x30) == 0xEE85_BA83;
  }

  /** Bid level 1, 0.04995 at 0.00000500, is written "4995500" and moves the
      register from 0xEE85_BA83 to 0x82AB_EDF1. */
  lemma BidLevelCrc1()
    ensures IsAscii(LevelDigits(ChecksumBids[1]))
    ensures Crc32.Update(BidStates[1], AsciiBytes(LevelDigits(ChecksumBids[1]))) == BidStates[2]
  {
    BidPrice1();
    VolumeText();
    BidAscii1();
    BidRegister1();
    assert ChecksumBids[1] == Level(4995, 500) && BidStates[1] == 0xEE85_BA83 && BidStates[2] == 0x82AB_EDF1;
    LevelCrc(ChecksumBids[1], "4995", "500", [0x34, 0x39, 0x39, 0x35, 0x35, 0x30, 0x30], BidStates[1], BidStates[2]);
  }

  lemma BidPrice1()
    ensures Digits(4995) == "4995"
  {
    assert Digits(4) == "4";
    assert Digits(49) == "49";
    assert Digits(499) == "499";
  }

  lemma BidAscii1()
    ensures IsAscii("4995" + "500") && AsciiBytes("4995" + "500") == [0x34, 0x39, 0x39, 0x35, 0x35, 0x30, 0x30]
  {
  }

  lemma BidRegister1()
    ensures Crc32.Update(0xEE85_BA83, [0x34, 0x39, 0x39, 0x35, 0x35, 0x30, 0x30]) == 0x82AB_EDF1
  {
    assert Crc32.UpdateByte(0xEE85_BA83, 0x34) == 0x55EB_A395;
    assert Crc32.UpdateByte(0x55EB_A395, 0x39) == 0xDF35_0460;
    assert Crc32.UpdateByte(0xDF35_0460, 0x39) == 0x1268_DC54;
    assert Crc32.UpdateByte(0x1268_DC54, 0x35) == 0x3AA7_3912;
    assert Crc32.UpdateByte(0x3AA7_3912, 0x35) == 0xA530_1252;
    assert Crc32.UpdateByte(0xA530_1252, 0x30) == 0xA319_3066;
    assert Crc32.UpdateByte(0xA319_3066, 0x30) == 0x82AB_EDF1;
  }

  /** Bid level 2, 0.04990 at 0.00000500, is written "4990500" and moves the
      register from 0x82AB_EDF1 to 0xD008_3D50. */
  lemma BidLevelCrc2()
    ensures IsAscii(LevelDigits(ChecksumBids[2]))
    ensures Crc32.Update(BidStates[2], AsciiBytes(LevelDigits(ChecksumBids[2]))) == BidStates[3]
  {
    BidPrice2();
    VolumeText();
    BidAscii2();
    BidRegister2();
    assert ChecksumBids[2] == Level(4990, 500) && BidStates[2] == 0x82AB_EDF1 && BidStates[3] == 0xD008_3D50;
    LevelCrc(ChecksumBids[2], "4990", "500", [0x34, 0x39, 0x39, 0x30, 0x35, 0x30, 0x30], BidStates[2], BidStates[3]);
  }

  lemma BidPrice2()
    ensures Digits(4990) == "4990"
  {
    assert Digits(4) == "4";
    assert Digits(49) == "49";
    assert Digits(499) == "499";
  }

  lemma BidAscii2()
    ensures IsAscii("4990" + "500") && AsciiBytes("4990" + "500") == [0x34, 0x39, 0x39, 0x30, 0x35, 0x30, 0x30]
  {
  }

  lemma BidRegister2()
    ensures Crc32.Update(0x82AB_EDF1, [0x34, 0x39, 0x39, 0x30, 0x35, 0x30, 0x30]) == 0xD008_3D50
  {
    assert Crc32.UpdateByte(0x82AB_EDF1, 0x34) == 0xEB8C_9DD2;
    assert Crc32.UpdateByte(0xEB8C_9DD2, 0x39) == 0x3733_B76D;
    assert Crc32.UpdateByte(0x3733_B76D, 0x39) == 0x6C31_A65A;
    assert Crc32.UpdateByte(0x6C31_A65A, 0x30) == 0xAD0B_B9E0;
    assert Crc32.UpdateByte(0xAD0B_B9E0, 0x35) == 0xF614_2DE2;
    assert Crc32.UpdateByte(0xF614_2DE2, 0x30) == 0x682B_A7D5;
    assert Crc32.UpdateByte(0x682B_A7D5, 0x30) == 0xD008_3D50;
  }

  /** Bid level 3, 0.04980 at 0.00000500, is written "4980500" and moves the
      register from 0xD008_3D50 to 0x4809_F27A. */
  lemma BidLevelCrc3()
    ensures IsAscii(LevelDigits(ChecksumBids[3]))
    ensures Crc32.Update(BidStates[3], AsciiBytes(LevelDigits(ChecksumBids[3]))) == BidStates[4]
  {
    BidPrice3();
    VolumeText();
    BidAscii3();
    BidRegister3();
    assert ChecksumBids[3] == Level(4980, 500) && BidStates[3] == 0xD008_3D50 && BidStates[4] == 0x4809_F27A;
    LevelCrc(ChecksumBids[3], "4980", "500", [0x34, 0x39, 0x38, 0x30, 0x35, 0x30, 0x30], BidStates[3], BidStates[4]);
  }

  lemma BidPrice3()
    ensures Digits(4980) == "4980"
  {
    assert Digits(4) == "4";
    assert Digits(49) == "49";
    assert Digits(498) == "498";
  }

  lemma BidAscii3()
    ensures IsAscii("4980" + "500") && AsciiBytes("4980" + "500") == [0x34, 0x39, 0x38, 0x30, 0x35, 0x30, 0x30]
  {
  }

  lemma BidRegister3()
    ensures Crc32.Update(0xD008_3D50, [0x34, 0x39, 0x38, 0x30, 0x35, 0x30, 0x30]) == 0x4809_F27A
  {
    assert Crc32.UpdateByte(0xD008_3D50, 0x34) == 0x4A0F_AD7C;
    assert Crc32.UpdateByte(0x4A0F_AD7C, 0x39) == 0x06FC_BAB2;
    assert Crc32.UpdateByte(0x06FC_BAB2, 0x38) == 0x0D6B_9684;
    assert Crc32.UpdateByte(0x0D6B_9684, 0x30) == 0xCC01_1C03;
    assert Crc32.UpdateByte(0xCC01_1C03, 0x35) == 0xCF76_9485;
    assert Crc32.UpdateByte(0xCF76_9485, 0x30) == 0xBBC4_3197;
    assert Crc32.UpdateByte(0xBBC4_3197, 0x30) == 0x4809_F27A;
  }

  /** Bid level 4, 0.04975 at 0.00000500, is written "4975500" and moves the
      register from 0x4809_F27A to 0x3360_BFD1. */
  lemma BidLevelCrc4()
    ensures IsAscii(LevelDigits(ChecksumBids[4]))
    ensures Crc32.Update(BidStates[4], AsciiBytes(LevelDigits(ChecksumBids[4]))) == BidStates[5]
  {
    BidPrice4();
    VolumeText();
    BidAscii4();
    BidRegister4();
    assert ChecksumBids[4] == Level(4975, 500) && BidStates[4] == 0x4809_F27A && BidStates[5] == 0x3360_BFD1;
    LevelCrc(ChecksumBids[4], "4975", "500", [0x34, 0x39, 0x37, 0x35, 0x35, 0x30, 0x30], BidStates[4], BidStates[5]);
  }

  lemma BidPrice4()
    ensures Digits(4975) == "4975"
  {
    assert Digits(4) == "4";
    assert Digits(49) == "49";
    assert Digits(497) == "497";
  }

  lemma BidAscii4()
    ensures IsAscii("4975" + "500") && AsciiBytes("4975" + "500") == [0x34, 0x39, 0x37, 0x35, 0x35, 0x30, 0x30]
  {
  }

  lemma BidRegister4()
    ensures Crc32.Update(0x4809_F27A, [0x34, 0x39, 0x37, 0x35, 0x35, 0x30, 0x30]) == 0x3360_BFD1
  {
    assert Crc32.UpdateByte(0x4809_F27A, 0x34) == 0x912C_6565;
    assert Crc32.UpdateByte(0x912C_6565, 0x39) == 0x624C_31BA;
    assert Crc32.UpdateByte(0x624C_31BA, 0x37) == 0x936B_B3AC;
    assert Crc32.UpdateByte(0x936B_B3AC, 0x35) == 0x8940_4053;
    assert Crc32.UpdateByte(0x8940_4053, 0x35) == 0xA458_842D;
    assert Crc32.UpdateByte(0xA458_842D, 0x30) == 0x63A2_345D;
    assert Crc32.UpdateByte(0x63A2_345D, 0x30) == 0x3360_BFD1;
  }

  /** Bid level 5, 0.04970 at 0.00000500, is written "4970500" and moves the
      register from 0x3360_BFD1 to 0xDAC8_E364. */
  lemma BidLevelCrc5()
    ensures IsAscii(LevelDigits(ChecksumBids[5]))
    ensures Crc32.Update(BidStates[5], AsciiBytes(LevelDigits(ChecksumBids[5]))) == BidStates[6]
  {
    BidPrice5();
    VolumeText();
    BidAscii5();
    BidRegister5();
    assert ChecksumBids[5] == Level(4970, 500) && BidStates[5] == 0x3360_BFD1 && BidStates[6] == 0xDAC8_E364;
    LevelCrc(ChecksumBids[5], "4970", "500", [0x34, 0x39, 0x37, 0x30, 0x35, 0x30, 0x30], BidStates[5], BidStates[6]);
  }

  lemma BidPrice5()
    ensures Digits(4970) == "4970"
  {
    assert Digits(4) == "4";
    assert Digits(49) == "49";
    assert Digits(497) == "497";
  }

  lemma BidAscii5()
    ensures IsAscii("4970" + "500") && AsciiBytes("4970" + "500") == [0x34, 0x39, 0x37, 0x30, 0x35, 0x30, 0x30]
  {
  }

  lemma BidRegister5()
    ensures Crc32.Update(0x3360_BFD1, [0x34, 0x39, 0x37, 0x30, 0x35, 0x30, 0x30]) == 0xDAC8_E364
  {
    assert Crc32.UpdateByte(0x3360_BFD1, 0x34) == 0xD053_7648;
    assert Crc32.UpdateByte(0xD053_7648, 0x39) == 0x27D2_12DC;
    assert Crc32.UpdateByte(0x27D2_12DC, 0x37) == 0x37FF_E9E2;
    assert Crc32.UpdateByte(0x37FF_E9E2, 0x30) == 0x68EA_4C11;
    assert Crc32.UpdateByte(0x68EA_4C11, 0x35) == 0x3C6B_0E9D;
    assert Crc32.UpdateByte(0x3C6B_0E9D, 0x30) == 0xA85B_B45B;
    assert Crc32.UpdateByte(0xA85B_B45B, 0x30) == 0xDAC8_E364;
  }

  /** Bid level 6, 0.04965 at 0.00000500, is written "4965500" and moves the
      register from 0xDAC8_E364 to 0x3257_4888. */
  lemma BidLevelCrc6()
    ensures IsAscii(LevelDigits(ChecksumBids[6]))
    ensures Crc32.Update(BidStates[6], AsciiBytes(LevelDigits(ChecksumBids[6]))) == BidStates[7]
  {
    BidPrice6();
    VolumeText();
    BidAscii6();
    BidRegister6();
    assert ChecksumBids[6] == Level(4965, 500) && BidStates[6] == 0xDAC8_E364 && BidStates[7] == 0x3257_4888;
    LevelCrc(ChecksumBids[6], "4965", "500", [0x34, 0x39, 0x36, 0x35, 0x35, 0x30, 0x30], BidStates[6], BidStates[7]);
  }

  lemma BidPrice6()
    ensures Digits(4965) == "4965"
  {
    assert Digits(4) == "4";
    assert Digits(49) == "49";
    assert Digits(496) == "496";
  }

  lemma BidAscii6()
    ensures IsAscii("4965" + "500") && AsciiBytes("4965" + "500") == [0x34, 0x39, 0x36, 0x35, 0x35, 0x30, 0x30]
  {
  }

  lemma BidRegister6()
    ensures Crc32.Update(0xDAC8_E364, [0x34, 0x39, 0x36, 0x35, 0x35, 0x30, 0x30]) == 0x3257_4888
  {
    assert Crc32.UpdateByte(0xDAC8_E364, 0x34) == 0x6BB1_9917;
    assert Crc32.UpdateByte(0x6BB1_9917, 0x39) == 0xDCBD_BC56;
    assert Crc32.UpdateByte(0xDCBD_BC56, 0x36) == 0x4D6E_DCE4;
    assert Crc32.UpdateByte(0x4D6E_DCE4, 0x35) == 0xF199_8C9E;
    assert Crc32.UpdateByte(0xF199_8C9E, 0x35) == 0x41F5_E3EC;
    assert Crc32.UpdateByte(0x41F5_E3EC, 0x30) == 0x8F24_6B1C;
    assert Crc32.UpdateByte(0x8F24_6B1C, 0x30) == 0x3257_4888;
  }

  /** Bid level 7, 0.04960 at 0.00000500, is written "4960500" and moves the
      register from 0x3257_4888 to 0xF2CF_4CE2. */
  lemma BidLevelCrc7()
    ensures IsAscii(LevelDigits(ChecksumBids[7]))
    ensures Crc32.Update(BidStates[7], AsciiBytes(LevelDigits(ChecksumBids[7]))) == BidStates[8]
  {
    BidPrice7();
    VolumeText();
    BidAscii7();
    BidRegister7();
    assert ChecksumBids[7] == Level(4960, 500) && BidStates[7] == 0x3257_4888 && BidStates[8] == 0xF2CF_4CE2;
    LevelCrc(ChecksumBids[7], "4960", "500", [0x34, 0x39, 0x36, 0x30, 0x35, 0x30, 0x30], BidStates[7], BidStates[8]);
  }

  lemma BidPrice7()
    ensures Digits(4960) == "4960"
  {
    assert Digits(4) == "4";
    assert Digits(49) == "49";
    assert Digits(496) == "496";
  }

  lemma BidAscii7()
    ensures IsAscii("4960" + "500") && AsciiBytes("4960" + "500") == [0x34, 0x39, 0x36, 0x30, 0x35, 0x30, 0x30]
  {
  }

  lemma BidRegister7()
    ensures Crc32.Update(0x3257_4888, [0x34, 0x39, 0x36, 0x30, 0x35, 0x30, 0x30]) == 0xF2CF_4CE2
  {
    assert Crc32.UpdateByte(0x3257_4888, 0x34) == 0xC2E5_A8EF;
    assert Crc32.UpdateByte(0xC2E5_A8EF, 0x39) == 0x6F72_9249;
    assert Crc32.UpdateByte(0x6F72_9249, 0x36) == 0xC0D5_1E3F;
    assert Crc32.UpdateByte(0xC0D5_1E3F, 0x30) == 0x907F_C88F;
    assert Crc32.UpdateByte(0x907F_C88F, 0x35) == 0x2B24_255A;
    assert Crc32.UpdateByte(0x2B24_255A, 0x30) == 0xAD4C_AC63;
    assert Crc32.UpdateByte(0xAD4C_AC63, 0x30) == 0xF2CF_4CE2;
  }

  /** Bid level 8, 0.04955 at 0.00000500, is written "4955500" and moves the
      register from 0xF2CF_4CE2 to 0xA1DD_156A. */
  lemma BidLevelCrc8()
    ensures IsAscii(LevelDigits(ChecksumBids[8]))
    ensures Crc32.Update(BidStates[8], AsciiBytes(LevelDigits(ChecksumBids[8]))) == BidStates[9]
  {
    BidPrice8();
    VolumeText();
    BidAscii8();
    BidRegister8();
    assert ChecksumBids[8] == Level(4955, 500) && BidStates[8] == 0xF2CF_4CE2 && BidStates[9] == 0xA1DD_156A;
    LevelCrc(ChecksumBids[8], "4955", "500", [0x34, 0x39, 0x35, 0x35, 0x35, 0x30, 0x30], BidStates[8], BidStates[9]);
  }

  lemma BidPrice8()
    ensures Digits(4955) == "4955"
  {
    assert Digits(4) == "4";
    assert Digits(49) == "49";
    assert Digits(495) == "495";
  }

  lemma BidAscii8()
    ensures IsAscii("4955" + "500") && AsciiBytes("4955" + "500") == [0x34, 0x39, 0x35, 0x35, 0x35, 0x30, 0x30]
  {
  }

  lemma BidRegister8()
    ensures Crc32.Update(0xF2CF_4CE2, [0x34, 0x39, 0x35, 0x35, 0x35, 0x30, 0x30]) == 0xA1DD_156A
  {
    assert Crc32.UpdateByte(0xF2CF_4CE2, 0x34) == 0x6F42_B8AD;
    assert Crc32.UpdateByte(0x6F42_B8AD, 0x39) == 0xF70D_15E5;
    assert Crc32.UpdateByte(0xF70D_15E5, 0x35) == 0x8624_DFC1;
    assert Crc32.UpdateByte(0x8624_DFC1, 0x35) == 0xBA56_12DA;
    assert Crc32.UpdateByte(0xBA56_12DA, 0x35) == 0x300F_A9FB;
    assert Crc32.UpdateByte(0x300F_A9FB, 0x30) == 0x0C86_1491;
    assert Crc32.UpdateByte(0x0C86_1491, 0x30) == 0xA1DD_156A;
  }

  /** Bid level 9, 0.04950 at 0.00000500, is written "4950500" and moves the
      register from 0xA1DD_156A to 0xC5E3_7C5C. */
  lemma BidLevelCrc9()
    ensures IsAscii(LevelDigits(ChecksumBids[9]))
    ensures Crc32.Update(BidStates[9], AsciiBytes(LevelDigits(ChecksumBids[9]))) == BidStates[10]
  {
    BidPrice9();
    VolumeText();
    BidAscii9();
    BidRegister9();
    assert ChecksumBids[9] == Level(4950, 500) && BidStates[9] == 0xA1DD_156A && BidStates[10] == 0xC5E3_7C5C;
    LevelCrc(ChecksumBids[9], "4950", "500", [0x34, 0x39, 0x35, 0x30, 0x35, 0x30, 0x30], BidStates[9], BidStates[10]);
  }

  lemma BidPrice9()
    ensures Digits(4950) == "4950"
  {
    assert Digits(4) == "4";
    assert Digits(49) == "49";
    assert Digits(495) == "495";
  }

  lemma BidAscii9()
    ensures IsAscii("4950" + "500") && AsciiBytes("4950" + "500") == [0x34, 0x39, 0x35, 0x30, 0x35, 0x30, 0x30]
  {
  }

  lemma BidRegister9()
    ensures Crc32.Update(0xA1DD_156A, [0x34, 0x39, 0x35, 0x30, 0x35, 0x30, 0x30]) == 0xC5E3_7C5C
  {
    assert Crc32.UpdateByte(0xA1DD_156A, 0x34) == 0x8C72_A1E6;
    assert Crc32.UpdateByte(0x8C72_A1E6, 0x39) == 0x16E0_BDE4;
    assert Crc32.UpdateByte(0x16E0_BDE4, 0x35) == 0xF1C2_02FF;
    assert Crc32.UpdateByte(0xF1C2_02FF, 0x30) == 0x0B2A_1D23;
    assert Crc32.UpdateByte(0x0B2A_1D23, 0x35) == 0xF4DF_9F4C;
    assert Crc32.UpdateByte(0xF4DF_9F4C, 0x30) == 0x5947_E288;
    assert Crc32.UpdateByte(0x5947_E288, 0x30) == 0xC5E3_7C5C;
  }

  /** The asks' text takes the register from its initial value to the state after the tenth ask. */
  lemma AskCrc()
    ensures IsAscii(DigitsText(ChecksumAsks))
    ensures Crc32.Update(AskStates[0], AsciiBytes(DigitsText(ChecksumAsks))) == AskStates[10]
  {
    forall i | 0 <= i < 10
      ensures IsAscii(LevelDigits(ChecksumAsks[i]))
      ensures Crc32.Update(AskStates[i], AsciiBytes(LevelDigits(ChecksumAsks[i]))) == AskStates[i + 1]
    {
      if i == 0 {
        AskLevelCrc0();
      } else if i == 1 {
        AskLevelCrc1();
      } else if i == 2 {
        AskLevelCrc2();
      } else if i == 3 {
        AskLevelCrc3();
      } else if i == 4 {
        AskLevelCrc4();
      } else if i == 5 {
        AskLevelCrc5();
      } else if i == 6 {
        AskLevelCrc6();
      } else if i == 7 {
        AskLevelCrc7();
      } else if i == 8 {
        AskLevelCrc8();
      } else {
        AskLevelCrc9();
      }
    }
    CrcOfLevels(ChecksumAsks, AskStates, 10, AskStates[0], AskStates[10]);
  }

  /** The bids' text continues from there to the final state. */
  lemma BidCrc()
    ensures IsAscii(DigitsText(ChecksumBids))
    ensures Crc32.Update(BidStates[0], AsciiBytes(DigitsText(ChecksumBids))) == BidStates[10]
  {
    forall i | 0 <= i < 10
      ensures IsAscii(LevelDigits(ChecksumBids[i]))
      ensures Crc32.Update(BidStates[i], AsciiBytes(LevelDigits(ChecksumBids[i]))) == BidStates[i + 1]
    {
      if i == 0 {
        BidLevelCrc0();
      } else if i == 1 {
        BidLevelCrc1();
      } else if i == 2 {
        BidLevelCrc2();
      } else if i == 3 {
        BidLevelCrc3();
      } else if i == 4 {
        BidLevelCrc4();
      } else if i == 5 {
        BidLevelCrc5();
      } else if i == 6 {
        BidLevelCrc6();
      } else if i == 7 {
        BidLevelCrc7();
      } else if i == 8 {
        BidLevelCrc8();
      } else {
        BidLevelCrc9();
      }
    }
    CrcOfLevels(ChecksumBids, BidStates, 10, BidStates[0], BidStates[10]);
  }

  /** A book of at most ten levels a side hashes its asks' text and then,
      from the register that leaves, its bids' text. */
  lemma ChecksumBySides(b: Book, mid: bv32, last: bv32)
    requires |b.asks| <= ChecksumDepth && |b.bids| <= ChecksumDepth
    requires IsAscii(DigitsText(b.asks)) && IsAscii(DigitsText(b.bids))
    requires Crc32.Update(0xFFFF_FFFF, AsciiBytes(DigitsText(b.asks))) == mid
    requires Crc32.Update(mid, AsciiBytes(DigitsText(b.bids))) == last
    ensures CalculateChecksum(b) == last ^ 0xFFFF_FFFF
  {
    assert Take(b.asks, ChecksumDepth) == b.asks && Take(b.bids, ChecksumDepth) == b.bids;
  }

  /** test_order_book_checksum: the book's checksum is 974947235. */
  lemma ChecksumFixture()
    ensures CalculateChecksum(Initialize(New(10), Some(Rows(ChecksumAsks)), Some(Rows(ChecksumBids)))) == 974947235
  {
    ChecksumBookLoads();
    AskCrc();
    BidCrc();
    assert AskStates[0] == 0xFFFF_FFFF && BidStates[0] == AskStates[10];
    ChecksumBySides(Book(10, ChecksumBids, ChecksumAsks), AskStates[10], BidStates[10]);
  }
}
