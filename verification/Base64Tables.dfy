/** The two tables of the Base64 code hold the alphabet. */
module Base64Tables {
  import opened Base64

  const ENC_TABLE: string :=
    "ABCDEFGH" + "IJKLMNOP" + "QRSTUVWX" + "YZabcdef" + "ghijklmn" + "opqrstuv" + "wxyz0123" + "456789+/"

  const DEC_TABLE_LOW: seq<int> :=
    [62, 255, 62, 255, 63, 52, 53, 54, 55, 56] +
    [57, 58, 59, 60, 61, 255, 255, 255, 0, 255] +
    [255, 255, 0, 1, 2, 3, 4, 5, 6, 7] +
    [8, 9, 10, 11, 12, 13, 14, 15, 16, 17]

  const DEC_TABLE_HIGH: seq<int> :=
    [18, 19, 20, 21, 22, 23, 24, 25, 255, 255] +
    [255, 255, 63, 255, 26, 27, 28, 29, 30, 31] +
    [32, 33, 34, 35, 36, 37, 38, 39, 40, 41] +
    [42, 43, 44, 45, 46, 47, 48, 49, 50, 51]

  const DEC_TABLE: seq<int> := DEC_TABLE_LOW + DEC_TABLE_HIGH

  const MIN_DEC_CHAR: char := '+'
  const MAX_DEC_CHAR: char := 'z'

  lemma EncTableIs(i: nat)
    requires i < 64
    ensures |ENC_TABLE| == 64 && ENC_TABLE[i] == Letter(i)
  {
  }

  lemma OutsideTable(c: char)
    requires !(MIN_DEC_CHAR <= c <= MAX_DEC_CHAR)
    ensures Value(c) == INVALID
  {
  }

  lemma LowTableIs(i: nat)
    requires i < 40
    ensures |DEC_TABLE_LOW| == 40 && DEC_TABLE_LOW[i] == Value((i + 43) as char)
  {
  }

  lemma HighTableIs(i: nat)
    requires i < 40
    ensures |DEC_TABLE_HIGH| == 40 && DEC_TABLE_HIGH[i] == Value((i + 83) as char)
  {
  }

  lemma DecTableIs(c: char)
    requires MIN_DEC_CHAR <= c <= MAX_DEC_CHAR
    ensures |DEC_TABLE| == 80 && DEC_TABLE[c as int - MIN_DEC_CHAR as int] == Value(c)
  {
    hide Value;
    var i := c as int - 43;
    LowTableIs(if i < 40 then i else 0);
    HighTableIs(if i < 40 then 0 else i - 40);
    var low, high := DEC_TABLE_LOW, DEC_TABLE_HIGH;
    assert (low + high)[i] == Value((i + 43) as char);
  }

  /** The encoder's table is the standard alphabet. */
  function EncodeDigit(i: nat): (c: char)
    requires i < 64
    ensures c == Letter(i)
  {
    EncTableIs(i);
    ENC_TABLE[i]
  }

  /** The decoder's table accepts both alphabets and the padding, and nothing else. */
  function DecodeChar(c: char): (d: int)
    ensures d == Value(c)
  {
    if c < MIN_DEC_CHAR || c > MAX_DEC_CHAR then OutsideTable(c); INVALID else
      DecTableIs(c);
      DEC_TABLE[c as int - MIN_DEC_CHAR as int]
  }
}
