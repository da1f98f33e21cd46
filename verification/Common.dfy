/** Shared by the models. */
module Common {
  const WORD: nat := 0x1_0000_0000   // a 32-bit word wraps here
  const PGSIZE: nat := 4096          // bytes in a page
  const BSIZE: nat := 512            // bytes in a disk block

  datatype Option<+T> = None | Some(value: T)
}
