/**
 * The scan-code translation of keyboard.c: scan codes 0..53 (scan-code set 1,
 * up to the '/' key) index a plain table and a shifted table; anything larger
 * is unprintable and reads as 0xFF (the `uint8_t` value of -1).
 */
module Keyboard {
  import opened Types

  /** PRINT_TABLE_SIZE: the scan codes the tables cover. */
  const TABLE_SIZE := 54
  const UNPRINTABLE: byte := 0xFF

  /** `ascii_array`: the character of each scan code with no modifier held (0 for non-characters). */
  const PLAIN: seq<byte> := [
    0, 0,
    49, 50, 51, 52, 53, 54, 55, 56, 57, 48,             // '1'..'9', '0'
    45, 61, 0, 0,                                       // '-', '='
    113, 119, 101, 114, 116, 121, 117, 105, 111, 112    // 'q'..'p'
  ] + [
    91, 93, 0, 0,                                       // '[', ']'
    97, 115, 100, 102, 103, 104, 106, 107, 108,         // 'a'..'l'
    59, 39, 96, 0, 92,                                  // ';', '\'', '`', '\\'
    122, 120, 99, 118, 98, 110, 109,                    // 'z'..'m'
    44, 46, 47                                          // ',', '.', '/'
  ]

  /** `shift_array`: the character of each scan code with shift held. */
  const SHIFTED: seq<byte> := [
    0, 0,
    33, 64, 35, 36, 37, 94, 38, 42, 40, 41,             // '!'..')'
    95, 43, 0, 0,                                       // '_', '+'
    81, 87, 69, 82, 84, 89, 85, 73, 79, 80              // 'Q'..'P'
  ] + [
    123, 125, 0, 0,                                     // '{', '}'
    65, 83, 68, 70, 71, 72, 74, 75, 76,                 // 'A'..'L'
    58, 34, 126, 0, 124,                                // ':', '"', '~', '|'
    90, 88, 67, 86, 66, 78, 77,                         // 'Z'..'M'
    60, 62, 63                                          // '<', '>', '?'
  ]

  predicate IsLower(c: byte) { 0x61 <= c <= 0x7A }

  /** A printable ASCII character (space through '~'). */
  predicate IsPrintable(c: byte) { 0x20 <= c <= 0x7E }

  /**
   * ascii: the plain character of a scan code, upper-cased only when caps lock
   * is on (`capFlag == 1`) and the character is a lower-case letter.
   */
  function Ascii(scan: byte, capFlag: int): (c: byte)
    ensures scan as int >= TABLE_SIZE ==> c == UNPRINTABLE
    ensures scan as int < TABLE_SIZE && !(capFlag == 1 && IsLower(PLAIN[scan])) ==> c == PLAIN[scan]
    ensures scan as int < TABLE_SIZE && capFlag == 1 && IsLower(PLAIN[scan]) ==>
              c as int == PLAIN[scan] as int - 0x20 && 0x41 <= c <= 0x5A
  {
    if scan as int >= TABLE_SIZE then UNPRINTABLE
    else if capFlag == 1 && IsLower(PLAIN[scan]) then PLAIN[scan] - 0x20
    else PLAIN[scan]
  }

  /** shift: the shifted character of a scan code; caps lock plays no part. */
  function Shift(scan: byte): (c: byte)
    ensures scan as int >= TABLE_SIZE ==> c == UNPRINTABLE
    ensures scan as int < TABLE_SIZE ==> c == SHIFTED[scan]
  {
    if scan as int >= TABLE_SIZE then UNPRINTABLE else SHIFTED[scan]
  }

  /** Every entry of the plain table is either 0 (no character) or printable. */
  lemma PlainPrintable(scan: nat)
    requires scan < TABLE_SIZE
    ensures PLAIN[scan] == 0 || IsPrintable(PLAIN[scan])
  {
    assert PLAIN[scan] in PLAIN;
  }

  /** Every entry of the shifted table is either 0 or printable. */
  lemma ShiftedPrintable(scan: nat)
    requires scan < TABLE_SIZE
    ensures SHIFTED[scan] == 0 || IsPrintable(SHIFTED[scan])
  {
    assert SHIFTED[scan] in SHIFTED;
  }

  /**
   * The two tables have their characters on the same keys. The proof goes key
   * by key, so that each case compares two literal entries; the four lemmas
   * below each take about a quarter of the scan codes.
   */
  lemma TablesAligned(scan: nat)
    requires scan < TABLE_SIZE
    ensures PLAIN[scan] == 0 <==> SHIFTED[scan] == 0
  {
    if scan < 13 {
      AlignedFirst(scan);
    } else if scan < 26 {
      AlignedSecond(scan);
    } else if scan < 40 {
      AlignedThird(scan);
    } else {
      AlignedFourth(scan);
    }
  }

  lemma AlignedFirst(scan: nat)
    requires scan < 13
    ensures PLAIN[scan] == 0 <==> SHIFTED[scan] == 0
  {
    var k := scan as int;
    if k == 0 {} else if k == 1 {} else if k == 2 {} else if k == 3 {} else if k == 4 {}
    else if k == 5 {} else if k == 6 {} else if k == 7 {} else if k == 8 {} else if k == 9 {}
    else if k == 10 {} else if k == 11 {}
    else {}
  }

  lemma AlignedSecond(scan: nat)
    requires 13 <= scan < 26
    ensures PLAIN[scan] == 0 <==> SHIFTED[scan] == 0
  {
    var k := scan as int;
    if k == 13 {} else if k == 14 {} else if k == 15 {} else if k == 16 {} else if k == 17 {}
    else if k == 18 {} else if k == 19 {} else if k == 20 {} else if k == 21 {} else if k == 22 {}
    else if k == 23 {} else if k == 24 {}
    else {}
  }

  lemma AlignedThird(scan: nat)
    requires 26 <= scan < 40
    ensures PLAIN[scan] == 0 <==> SHIFTED[scan] == 0
  {
    var k := scan as int;
    if k == 26 {} else if k == 27 {} else if k == 28 {} else if k == 29 {} else if k == 30 {}
    else if k == 31 {} else if k == 32 {} else if k == 33 {} else if k == 34 {} else if k == 35 {}
    else if k == 36 {} else if k == 37 {} else if k == 38 {}
    else {}
  }

  lemma AlignedFourth(scan: nat)
    requires 40 <= scan < TABLE_SIZE
    ensures PLAIN[scan] == 0 <==> SHIFTED[scan] == 0
  {
    var k := scan as int;
    if k == 40 {} else if k == 41 {} else if k == 42 {} else if k == 43 {} else if k == 44 {}
    else if k == 45 {} else if k == 46 {} else if k == 47 {} else if k == 48 {} else if k == 49 {}
    else if k == 50 {} else if k == 51 {} else if k == 52 {}
    else {}
  }

  /**
   * On letter keys caps lock and shift agree: the caps-lock character is the
   * shifted one. On every other key caps lock changes nothing. Like
   * TablesAligned, the proof compares literal table entries key by key, a
   * quarter of the scan codes at a time.
   */
  lemma CapsMatchesShiftOnLetters(scan: byte)
    requires (scan as int) < TABLE_SIZE
    ensures IsLower(PLAIN[scan]) ==> Ascii(scan, 1) == Shift(scan)
    ensures !IsLower(PLAIN[scan]) ==> Ascii(scan, 1) == Ascii(scan, 0)
  {
    var k := scan as nat;
    if k < 13 {
      CapitalsFirst(k);
    } else if k < 26 {
      CapitalsSecond(k);
    } else if k < 40 {
      CapitalsThird(k);
    } else {
      CapitalsFourth(k);
    }
  }

  /** Each lower-case letter of the plain table has its capital in the shifted table. */
  lemma CapitalsFirst(scan: nat)
    requires scan < 13
    ensures IsLower(PLAIN[scan]) ==> SHIFTED[scan] as int == PLAIN[scan] as int - 0x20
  {
    var k := scan as int;
    if k == 0 {} else if k == 1 {} else if k == 2 {} else if k == 3 {} else if k == 4 {}
    else if k == 5 {} else if k == 6 {} else if k == 7 {} else if k == 8 {} else if k == 9 {}
    else if k == 10 {} else if k == 11 {}
    else {}
  }

  lemma CapitalsSecond(scan: nat)
    requires 13 <= scan < 26
    ensures IsLower(PLAIN[scan]) ==> SHIFTED[scan] as int == PLAIN[scan] as int - 0x20
  {
    var k := scan as int;
    if k == 13 {} else if k == 14 {} else if k == 15 {} else if k == 16 {} else if k == 17 {}
    else if k == 18 {} else if k == 19 {} else if k == 20 {} else if k == 21 {} else if k == 22 {}
    else if k == 23 {} else if k == 24 {}
    else {}
  }

  lemma CapitalsThird(scan: nat)
    requires 26 <= scan < 40
    ensures IsLower(PLAIN[scan]) ==> SHIFTED[scan] as int == PLAIN[scan] as int - 0x20
  {
    var k := scan as int;
    if k == 26 {} else if k == 27 {} else if k == 28 {} else if k == 29 {} else if k == 30 {}
    else if k == 31 {} else if k == 32 {} else if k == 33 {} else if k == 34 {} else if k == 35 {}
    else if k == 36 {} else if k == 37 {} else if k == 38 {}
    else {}
  }

  lemma CapitalsFourth(scan: nat)
    requires 40 <= scan < TABLE_SIZE
    ensures IsLower(PLAIN[scan]) ==> SHIFTED[scan] as int == PLAIN[scan] as int - 0x20
  {
    var k := scan as int;
    if k == 40 {} else if k == 41 {} else if k == 42 {} else if k == 43 {} else if k == 44 {}
    else if k == 45 {} else if k == 46 {} else if k == 47 {} else if k == 48 {} else if k == 49 {}
    else if k == 50 {} else if k == 51 {} else if k == 52 {}
    else {}
  }
}
