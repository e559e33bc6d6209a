/** Go's int64. */
module Int64 {

  const MAX_INT64: int := 0x7fff_ffff_ffff_ffff

  function Wrap64(x: int): int {
    (x + 0x8000_0000_0000_0000) % 0x1_0000_0000_0000_0000 - 0x8000_0000_0000_0000
  }

  function Add64(x: int, y: int): int {
    Wrap64(x + y)
  }

  /** The int64 that is equal to x modulo 2^64. */
  lemma WrapIsCongruent(x: int) returns (k: int)
    ensures -MAX_INT64 - 1 <= Wrap64(x) <= MAX_INT64
    ensures x == Wrap64(x) + k * 0x1_0000_0000_0000_0000
  {
    k := (x + 0x8000_0000_0000_0000) / 0x1_0000_0000_0000_0000;
  }

  /** A sum is wrapped alike whether or not a summand was wrapped before. */
  lemma AddWrapped(x: int, y: int)
    ensures Add64(Wrap64(x), y) == Wrap64(x + y)
  {
  }

  lemma WrapKeeps(x: int)
    requires 0 <= x <= MAX_INT64
    ensures Wrap64(x) == x
  {
  }

  lemma AddKeeps(x: int, y: int)
    requires 0 <= x + y <= MAX_INT64
    ensures Add64(x, y) == x + y
  {
  }

  /** Where one and the largest int64 end up. */
  lemma WrapPastTheEnd()
    ensures Wrap64(1) == 1 && Wrap64(MAX_INT64 + 1) < 0
  {
  }
}
