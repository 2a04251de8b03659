/** Constants of the headers that several components share. */
module Params {

  const DIRSIZ := 14
  const ROOTINO := 1
  const KERNBASE := 0x8000_0000
}
