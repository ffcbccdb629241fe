/** Constants of the CPIO newc format. */
module Newc {
  import opened Machine

  const NEWC_MAGIC: seq<byte> := [48, 55, 48, 55, 48, 49]
  const HEADER_LEN: nat := 110
  const TRAILER_NAME: seq<byte> := [84, 82, 65, 73, 76, 69, 82, 33, 33, 33]
}
