/** The machine integers of the program, and its arithmetic on unsigned 64-bit counters and times. */
module Words {

  type i32 = n: int | -0x8000_0000 <= n < 0x8000_0000

  type u32 = n: int | 0 <= n < 0x1_0000_0000

  type u64 = n: int | 0 <= n < 0x1_0000_0000_0000_0000

  /** Reduction of a mathematical integer to 64 bits, as C++ does for unsigned arithmetic. */
  function Wrap(n: int): u64 {
    n % 0x1_0000_0000_0000_0000
  }

  function Add(a: u64, b: u64): u64 {
    Wrap(a + b)
  }

  function Sub(a: u64, b: u64): u64 {
    Wrap(a - b)
  }

  lemma WrapAdd(a: int, b: int)
    ensures Wrap(Wrap(a) + b) == Wrap(a + b)
    ensures Wrap(a + Wrap(b)) == Wrap(a + b)
  {}

  lemma WrapOfWord(a: u64)
    ensures Wrap(a) == a
  {}

  function Max(a: u64, b: u64): u64 {
    if a < b then b else a
  }

  function Min(a: u64, b: u64): u64 {
    if a > b then b else a
  }
}
