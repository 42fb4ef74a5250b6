/** Frames and the sizes of the CAN controller. */
module CanTypes {

  const CHANNELS: nat := 6
  const TX_BUFFERS: nat := 16      // per channel
  const CHANNEL_FIFOS: nat := 3    // transmit/receive FIFOs per channel
  const RX_FIFOS: nat := 8
  const FIFO_MAX: nat := 128
  const PAGE_RULES: nat := 16
  const PAGES: nat := 24

  /** Identifiers have 29 bits. */
  type Id = n: nat | n < 0x2000_0000

  /** tag is the label field. */
  datatype Frame = Frame(ide: bool, rtr: bool, dlc: nat, tag: nat, id: Id, data: seq<nat>)

  datatype Code = Ok | Perm | Limit | NoEnt | Invalid

  /** FIFO depth selected by the three-bit depth field. */
  function Depth(quelen: nat): (d: nat)
    requires quelen < 8
    ensures d <= FIFO_MAX
  {
    if quelen == 0 then 0 else if quelen == 1 then 4 else if quelen == 2 then 8 else if quelen == 3 then 16
    else if quelen == 4 then 32 else if quelen == 5 then 48 else if quelen == 6 then 64 else FIFO_MAX
  }
}
