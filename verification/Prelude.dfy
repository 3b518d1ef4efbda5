// Vocabulary shared by the modules of this project.
module Prelude {
  datatype Option<+T> = None | Some(value: T)

  type byte = b: nat | b < 256

  // One more than the largest value of a 32-bit word.
  const WORD32: nat := 0x1_0000_0000

  // One more than the largest value of a 64-bit unsigned counter.
  const WORD64: nat := 0x1_0000_0000_0000_0000

  // The index of a default-constructed compiler id.
  const INVALID_INDEX: nat := 0xFFFF_FFFF

  // ++ and -- on a std::uint64_t, which wrap around.
  function Inc64(n: nat): (r: nat)
    ensures n < WORD64 ==> r < WORD64
  {
    if n + 1 == WORD64 then 0 else n + 1
  }

  function Dec64(n: nat): (r: nat)
    ensures n < WORD64 ==> r < WORD64
  {
    if n == 0 then WORD64 - 1 else n - 1
  }

  lemma SubsetCardinality<T>(small: set<T>, large: set<T>)
    requires small <= large
    ensures |small| <= |large|
  {
    if small != {} {
      var x :| x in small;
      SubsetCardinality(small - {x}, large - {x});
    }
  }

  lemma Regroup<T>(a: seq<T>, b: seq<T>, c: seq<T>)
    ensures a + (b + c) == (a + b) + c
  {
  }
}
