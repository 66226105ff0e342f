/** The 32-bit machine the kernel runs on: integer widths and C strings. */
module Machine {
  const WORD_SIZE := 0x1_0000_0000
  const INT_MAX := 0x7FFF_FFFF

  type uint8 = x: int | 0 <= x < 0x100
  type uint16 = x: int | 0 <= x < 0x1_0000
  type uint32 = x: int | 0 <= x < WORD_SIZE

  datatype Option<+T> = None | Some(value: T)

  /** A NUL-terminated string laid out in memory, its NUL included and last. */
  predicate IsCString(s: seq<uint8>) {
    |s| > 0 && s[|s| - 1] == 0 && forall i :: 0 <= i < |s| - 1 ==> s[i] != 0
  }
}
