/** The bucket hash shared by the label table, the string table and the code
    generator's own label table: the 32-bit sum of the name's (signed) chars,
    reduced modulo the table size. */
module Hashing {
  import opened Common

  /** SYMBOL_HTABLE_SIZE, STRING_HTABLE_SIZE and compile.c's HTABLE_SIZE are
      all 4999. */
  const HTABLE_SIZE: nat := 4999

  /** The value a C `char` (signed on the targets the source is built for)
      adds to an `uint32_t` accumulator. */
  function SignedChar(c: char): (v: int)
    ensures -128 <= v < 128
  {
    var b := c as int % 256;
    if b < 128 then b else b - 256
  }

  /** The `uint32_t char_sum` after adding every char of `s` in order. */
  function CharSum(s: string): (r: u32)
  {
    if s == [] then 0
    else (CharSum(s[..|s| - 1]) + SignedChar(s[|s| - 1])) % TWO_32
  }

  function HashOf(s: string): (h: nat)
  {
    CharSum(s) % HTABLE_SIZE
  }

  /** `symtab_hash` (and its copies `strtab_hash` and `compile_hash`). */
  method Hash(s: string) returns (h: nat)
    ensures h == HashOf(s)
    ensures h < HTABLE_SIZE
  {
    var charSum: u32 := 0;
    var i := 0;
    while i < |s|
      invariant 0 <= i <= |s|
      invariant charSum == CharSum(s[..i])
    {
      assert s[..i + 1][..i] == s[..i];
      charSum := (charSum + SignedChar(s[i])) % TWO_32;
      i := i + 1;
    }
    assert s[..i] == s;
    h := charSum % HTABLE_SIZE;
  }
}
