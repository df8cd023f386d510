/** How the indices of a sub-queue are spread over blocks of BLOCK_SIZE == 32 elements.
 */
module Blocks {
  // Index i is element Offset(i) of the block numbered BlockNo(i), whose base is BaseOf(i).
  function BlockNo(i: nat): nat { i / 32 }

  function Offset(i: nat): nat { i % 32 }

  function BaseOf(i: nat): (b: nat)
    ensures b == 32 * BlockNo(i)
  {
    i - i % 32
  }
}
