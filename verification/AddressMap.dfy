/** Where the parts of a user address space begin and end. */
module AddressMap {
  /** The first address mmap hands out. */
  const MMAP_BASE: nat := 0x700_0000
  /** The user stack: its last address plus one, and its pages. */
  const STACK_TOP: nat := 0x800_0000
  const STACK_PAGES: nat := 4
  const STACK_BYTES: nat := 16384
  const STACK_BOTTOM: nat := STACK_TOP - STACK_BYTES
}
