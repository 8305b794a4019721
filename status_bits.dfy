/** The status byte of a software timer and the bit macros READ, SET and CLR
    that the timer code applies to it. */
module StatusBits {
  /** A bit position inside one byte. */
  type BitIndex = n: bv8 | n < 8

  /** Bit 7: the slot is enabled. */
  const ENABLEBIT: BitIndex := 7
  /** Bit 0: the slot is running. */
  const RUNBIT: BitIndex := 0
  /** Bit 1: 0 for a periodic slot, 1 for a one-shot slot. */
  const MODEBIT: BitIndex := 1

  /** READ(U, N): bit N of U. */
  function Read(u: bv8, n: BitIndex): bool
  {
    (u >> n) & 1 == 1
  }

  /** READ shifts bit N down and masks it; that agrees with masking bit N in
      place, the test that SET and CLR build on. */
  lemma ReadIsMask(u: bv8, n: BitIndex)
    ensures Read(u, n) <==> u & (1 << n) != 0
  {
  }

  /** SET(U, N): bit N becomes 1, every other bit is kept. */
  function Set(u: bv8, n: BitIndex): (r: bv8)
    ensures Read(r, n)
    ensures forall k: BitIndex :: k != n ==> Read(r, k) == Read(u, k)
  {
    u | (1 << n)
  }

  /** CLR(U, N): bit N becomes 0, every other bit is kept. */
  function Clr(u: bv8, n: BitIndex): (r: bv8)
    ensures !Read(r, n)
    ensures forall k: BitIndex :: k != n ==> Read(r, k) == Read(u, k)
  {
    u & !(1 << n)
  }

  /** Clearing a bit that was set and setting it again gives back the byte. */
  lemma SetAfterClr(u: bv8, n: BitIndex)
    requires Read(u, n)
    ensures Set(Clr(u, n), n) == u
  {
  }
}
