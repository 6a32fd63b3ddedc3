/** Machine constants shared by the models. */
module Machine {
  const U32: nat := 0x1_0000_0000

  /** The cast to uint32_t. */
  function Low32(x: int): (r: nat)
    ensures r < U32
    ensures 0 <= x < U32 ==> r == x
    ensures U32 <= x < 2 * U32 ==> r == x - U32
  {
    x % U32
  }

  /** A flash sector, the unit of erasing. */
  const SECTOR: nat := 4096
}
