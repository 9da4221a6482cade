/** Types shared by the modules of the project. */
module Common {

  datatype Option<+T> = None | Some(value: T)

  /** An unsigned 8-bit value. Shifts and masks on bytes are written as division and remainder. */
  type byte = x: int | 0 <= x < 256

  const TWO_TO_THE_32: nat := 0x1_0000_0000
  const TWO_TO_THE_64: nat := 0x1_0000_0000_0000_0000

  function Min(a: int, b: int): int {
    if a < b then a else b
  }

  function Max(a: int, b: int): int {
    if a < b then b else a
  }

  function Pow(b: nat, e: nat): (r: nat)
    ensures 0 < b ==> 0 < r
  {
    if e == 0 then 1 else b * Pow(b, e - 1)
  }

  const NUL: char := '\0'

  /** The position of the first `c`, or the length. */
  function Find(s: string, c: char): (k: nat)
    ensures k <= |s| && c !in s[..k] && (k < |s| ==> s[k] == c)
  {
    if s == [] || s[0] == c then 0 else
      assert s[..1 + Find(s[1..], c)] == [s[0]] + s[1..][..Find(s[1..], c)];
      1 + Find(s[1..], c)
  }
}
