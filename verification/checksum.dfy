/** `OrderBook::calculate_checksum` (order_book.rs:147-182): the top ten
    asks, then the top ten bids, each level written as its price field and
    its volume field, hashed with CRC-32. */
module Checksum {
  import opened Levels
  import opened Format
  import opened OrderBook
  import Crc32

  /** Levels per side that the checksum covers. */
  const ChecksumDepth: nat := 10

  /** One level's contribution: price field, then volume field. */
  function LevelText(l: Level): string {
    CanonicalField(l.price, PricePlaces) + CanonicalField(l.volume, VolumePlaces)
  }

  function SideText(s: seq<Level>): string {
    if |s| == 0 then "" else LevelText(s[0]) + SideText(s[1..])
  }

  /** Reference form of the same text, straight from the scaled integers:
      the digits of each price and volume without leading zeros. */
  function DigitsText(s: seq<Level>): string {
    if |s| == 0 then "" else Digits(s[0].price) + Digits(s[0].volume) + DigitsText(s[1..])
  }

  lemma {:induction false} SideTextIsDigitsText(s: seq<Level>)
    ensures SideText(s) == DigitsText(s)
    ensures IsDigits(SideText(s))
  {
    if |s| > 0 {
      SideTextIsDigitsText(s[1..]);
      IsDigitsAppend(Digits(s[0].price), Digits(s[0].volume));
      IsDigitsAppend(Digits(s[0].price) + Digits(s[0].volume), SideText(s[1..]));
    }
  }

  /** The string the checksum hashes: the first ten asks in stored order,
      then the first ten bids, each level as the digits of its scaled price
      and scaled volume with leading zeros dropped (so a zero contributes
      nothing). */
  function ChecksumInput(b: Book): (r: string)
    ensures r == DigitsText(Take(b.asks, ChecksumDepth)) + DigitsText(Take(b.bids, ChecksumDepth))
    ensures IsDigits(r)
  {
    var asks := SideText(Take(b.asks, ChecksumDepth));
    var bids := SideText(Take(b.bids, ChecksumDepth));
    SideTextIsDigitsText(Take(b.asks, ChecksumDepth));
    SideTextIsDigitsText(Take(b.bids, ChecksumDepth));
    IsDigitsAppend(asks, bids);
    asks + bids
  }

  predicate IsAscii(s: string) {
    forall i :: 0 <= i < |s| ==> s[i] < 128 as char
  }

  /** `String::as_bytes` of an ASCII string: one byte per character. */
  function AsciiBytes(s: string): (r: seq<bv8>)
    requires IsAscii(s)
    ensures |r| == |s|
  {
    seq(|s|, i requires 0 <= i < |s| => s[i] as bv8)
  }

  lemma AsciiBytesAppend(a: string, b: string)
    requires IsAscii(a) && IsAscii(b)
    ensures IsAscii(a + b)
    ensures AsciiBytes(a + b) == AsciiBytes(a) + AsciiBytes(b)
  {
    assert forall i :: 0 <= i < |a + b| ==> (a + b)[i] == if i < |a| then a[i] else b[i - |a|];
  }

  lemma DigitsAreAscii(s: string)
    requires IsDigits(s)
    ensures IsAscii(s)
  {
  }

  /** `calculate_checksum`: CRC-32 of the checksum input's bytes. The
      hasher is fed the ask text and then the bid text, each as ASCII
      bytes, and the result is the complemented register. */
  function CalculateChecksum(b: Book): (r: bv32)
    ensures IsAscii(DigitsText(Take(b.asks, ChecksumDepth)))
    ensures IsAscii(DigitsText(Take(b.bids, ChecksumDepth)))
    ensures r == Crc32.Update(Crc32.Update(0xFFFF_FFFF, AsciiBytes(DigitsText(Take(b.asks, ChecksumDepth)))),
                              AsciiBytes(DigitsText(Take(b.bids, ChecksumDepth)))) ^ 0xFFFF_FFFF
  {
    var text := ChecksumInput(b);
    var asks := DigitsText(Take(b.asks, ChecksumDepth));
    var bids := DigitsText(Take(b.bids, ChecksumDepth));
    SideTextIsDigitsText(Take(b.asks, ChecksumDepth));
    SideTextIsDigitsText(Take(b.bids, ChecksumDepth));
    DigitsAreAscii(asks);
    DigitsAreAscii(bids);
    AsciiBytesAppend(asks, bids);
    Crc32.UpdateAppend(0xFFFF_FFFF, AsciiBytes(asks), AsciiBytes(bids));
    Crc32.Checksum(AsciiBytes(text))
  }

  /** The checksum reads only the top ten levels of each side: books that
      agree there, whatever their depth or deeper levels, get the same
      checksum. */
  lemma ChecksumReadsTopTen(b1: Book, b2: Book)
    requires Take(b1.asks, ChecksumDepth) == Take(b2.asks, ChecksumDepth)
    requires Take(b1.bids, ChecksumDepth) == Take(b2.bids, ChecksumDepth)
    ensures ChecksumInput(b1) == ChecksumInput(b2)
    ensures CalculateChecksum(b1) == CalculateChecksum(b2)
  {
  }

  /** Each level's text is decodable once its field boundaries are known:
      reading a field back gives the scaled integer. */
  lemma LevelTextRoundTrip(l: Level)
    ensures LevelText(l) == Digits(l.price) + Digits(l.volume)
    ensures DigitsValue(Digits(l.price)) == l.price && DigitsValue(Digits(l.volume)) == l.volume
  {
    DigitsRoundTrip(l.price);
    DigitsRoundTrip(l.volume);
  }
}
